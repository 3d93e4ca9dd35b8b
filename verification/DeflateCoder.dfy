/** The second half of deflate: ct_tally collects tokens, and flush_block writes them as a block. */
module DeflateCoder {
  import opened Arithmetic
  import opened Bytes
  import opened BitSeq
  import opened HuffmanLengths
  import opened HuffmanGen
  import opened HuffmanBuild
  import opened HuffmanDepth
  import opened HuffmanTree
  import opened HuffmanCodes
  import opened TreeBuilder
  import opened BitWriter
  import opened DeflateFormat
  import opened DeflateTokens
  import opened DeflateRuns
  import opened DeflateTrees
  import opened DeflateHeader
  import opened DeflateTables
  import opened DeflateBuffers
  import opened DeflateBlocks

  const HEAP_SIZE := 2 * L_CODES + 1

  /** The trees of a dynamic block. */
  datatype Dynamic = Dynamic(ll: seq<nat>, lcodes: seq<nat>, dl: seq<nat>, dcodes: seq<nat>, cl: seq<nat>, clcodes: seq<nat>, blcodes: nat)

  ghost predicate GoodDynamic(t: Dynamic, toks: seq<Token>) {
    && Codes(t.lcodes, t.ll) && Codes(t.dcodes, t.dl) && AllSends(t.ll, t.lcodes, t.dl, t.dcodes, toks) && AllCovered(t.ll, t.dl, toks)
    && END_BLOCK < |t.lcodes| && t.ll[END_BLOCK] != 0 && HasCode(t.ll, END_BLOCK) && CodeLens(t.ll) && CodeLens(t.dl)
    && HeaderFit(t.ll, t.dl, t.cl, t.blcodes) && Sendable(t.clcodes, t.cl, Runs(t.ll)) && Sendable(t.clcodes, t.cl, Runs(t.dl))
  }

  ghost function BodyOf(t: Dynamic, toks: seq<Token>): seq<Bit>
    requires GoodDynamic(t, toks)
  {
    DynamicBody(t.ll, t.dl, t.cl, t.blcodes, toks)
  }

  ghost predicate FixedReady(toks: seq<Token>) {
    AllCovered(FIXED_LIT, FIXED_DIST, toks) && HasCode(FIXED_LIT, END_BLOCK)
  }

  /** The frequency arrays: after the symbols there is room for the inner nodes of the tree. */
  ghost predicate Frequencies(freqL: seq<nat>, freqD: seq<nat>, freqBl: seq<nat>, toks: seq<Token>) {
    && |freqL| == 2 * L_CODES + 1 && freqL[..L_CODES] == TallyL(toks)
    && |freqD| == 2 * D_CODES + 1 && freqD[..D_CODES] == TallyD(toks)
    && |freqBl| == 2 * BL_CODES + 1 && forall i :: 0 <= i < BL_CODES ==> freqBl[i] == 0
  }

  /** The frequencies of a block add up to the number of its tokens: with at most 8191 of them, and two forced symbols,
      far below what would fill the sixteen bits of a frequency or the eight bits of a depth. */
  lemma {:induction false} BlockTotals(freqL: seq<nat>, freqD: seq<nat>, freqBl: seq<nat>, toks: seq<Token>)
    requires Frequencies(freqL, freqD, freqBl, toks)
    ensures FreqTotal(freqL, L_CODES) == |toks| + 1 && FreqTotal(freqD, D_CODES) <= |toks|
  {
    hide TallyL, TallyD;
    TallyTotals(toks);
    SameFreqTotal(freqL, TallyL(toks), L_CODES);
    SameFreqTotal(freqD, TallyD(toks), D_CODES);
  }

  lemma {:induction false} TallyTotals(toks: seq<Token>)
    ensures FreqTotal(TallyL(toks), L_CODES) == |toks| + 1 && FreqTotal(TallyD(toks), D_CODES) <= |toks|
    decreases |toks|
  {
    hide FreqTotal, LitSym, DistCode;
    if toks == [] {
      NoFreqTotal(NoCounts(L_CODES), L_CODES);
      NoFreqTotal(NoCounts(D_CODES), D_CODES);
      BumpFreqTotal(NoCounts(L_CODES), END_BLOCK, L_CODES);
    } else {
      var n := |toks| - 1;
      TallyTotals(toks[..n]);
      BumpFreqTotal(TallyL(toks[..n]), LitSym(toks[n]), L_CODES);
      if toks[n].Ref? { BumpFreqTotal(TallyD(toks[..n]), DistCode(toks[n].dist), D_CODES); }
    }
  }

  lemma {:induction false} FixedTotals(toks: seq<Token>, freqL: seq<nat>, freqD: seq<nat>, freqBl: seq<nat>, lcodes: seq<nat>, dcodes: seq<nat>)
    requires AllSound(toks) && Frequencies(freqL, freqD, freqBl, toks) && |lcodes| == 288 && |dcodes| == 30
    ensures ValidDesc(L_DESC) && ValidDesc(D_DESC) && FixedReady(toks) && AllSends(FIXED_LIT, lcodes, FIXED_DIST, dcodes, toks)
    ensures L_DESC.elems == L_CODES && D_DESC.elems == D_CODES
    ensures StaticTotal(freqL, L_DESC, L_CODES) + StaticTotal(freqD, D_DESC, D_CODES) == |FixedBody(toks)| <= 32 * |toks| + 9
  {
    hide ValidDesc, BitTotal, FIXED_LIT, FIXED_DIST, TallyL, TallyD, CodeLens, CodeOf, AllCovered, AllSends, SymbolsBelow, EncTokens, CodeSeq, FlatStart, AllSound;
    Descs();
    FixedLitLens();
    FixedDistLens();
    FixedCovers(toks, lcodes, dcodes);
    SendsCovered(FIXED_LIT, lcodes, FIXED_DIST, dcodes, toks);
    BlockBits(FIXED_LIT, FIXED_DIST, L_CODES, D_CODES, toks);
    FixedSize(toks);
    Takes(FIXED_LIT, freqL, TallyL(toks), L_DESC, L_CODES);
    Takes(FIXED_DIST, freqD, TallyD(toks), D_DESC, D_CODES);
  }

  lemma Takes(ls: seq<nat>, freq: seq<nat>, tally: seq<nat>, d: Desc, m: nat)
    requires ValidDesc(d) && m <= d.elems && m <= |ls| && |tally| <= |freq| && tally == freq[..|tally|] && m <= |tally|
    ensures BitTotal(ls, freq, d, m) == BitTotal(ls, tally, d, m)
  {
    hide ValidDesc, BitTotal;
    BitTotalSame(ls, ls, freq, tally, d, m);
  }

  /** The sizes of both codings, from the frequencies. */
  lemma {:induction false} DynamicTotals(toks: seq<Token>, freqL: seq<nat>, freqD: seq<nat>, freqBl: seq<nat>, ll: seq<nat>, dl: seq<nat>)
    requires ValidDesc(L_DESC) && ValidDesc(D_DESC) && Frequencies(freqL, freqD, freqBl, toks) && AllCovered(ll, dl, toks) && SymbolsBelow(toks, |ll|, |dl|)
    requires END_BLOCK < |ll| <= L_CODES && |dl| <= D_CODES && L_DESC.elems == L_CODES && D_DESC.elems == D_CODES
    ensures BitTotal(ll, freqL, L_DESC, |ll|) + BitTotal(dl, freqD, D_DESC, |dl|) == |EncTokens(ll, dl, toks)| + ll[END_BLOCK]
  {
    hide ValidDesc, BitTotal, TallyL, TallyD, AllCovered, SymbolsBelow, EncTokens, L_DESC, D_DESC;
    BlockBits(ll, dl, |ll|, |dl|, toks);
    Takes(ll, freqL, TallyL(toks), L_DESC, |ll|);
    Takes(dl, freqD, TallyD(toks), D_DESC, |dl|);
  }

  /** The two codings of a block, with their exact sizes. */
  ghost predicate Measured(t: Dynamic, toks: seq<Token>, opt: nat, stat: nat) {
    && GoodDynamic(t, toks) && FixedReady(toks)
    && opt == |BodyOf(t, toks)| && stat == |FixedBody(toks)| <= 32 * |toks| + 9
  }

  /** The tokens lead from one output to another; if the bytes between are available, they are `data`. */
  ghost predicate Gives(out: seq<Byte>, toks: seq<Token>, data: seq<Byte>, available: bool, storedLen: nat, after: seq<Byte>) {
    Playable(out, toks) && Play(out, toks) == after && (available ==> |data| == storedLen && after == out + data)
  }

  /** The three trees of a block, with the depths that build_tree has computed. */
  datatype Grown3 = Grown3(tl: Forest, depthL: seq<nat>, td: Forest, depthD: seq<nat>, tb: Forest, depthB: seq<nat>)

  /** Depths are at most 18, so that eight bits are enough for them, and weights fit into sixteen bits. */
  ghost predicate AllNarrow(g: Grown3) {
    Narrow(g.tl, g.depthL, 18) && Narrow(g.td, g.depthD, 18) && Narrow(g.tb, g.depthB, 18)
  }

  /** build_tree for both alphabets and build_bl_tree; opt_len and static_len are then exactly the sizes of the block. */
  method BuildTrees(heap: array<nat>, freqL: seq<nat>, freqD: seq<nat>, freqBl: seq<nat>, ghost toks: seq<Token>)
    returns (t: Dynamic, opt: int, stat: int, ghost grown: Grown3)
    requires heap.Length == HEAP_SIZE && AllSound(toks) && Frequencies(freqL, freqD, freqBl, toks)
    modifies heap
    ensures opt >= 0 && stat >= 0 && Measured(t, toks, opt, stat)
    ensures |toks| < LIT_BUFSIZE ==> AllNarrow(grown)
  {
    hide FreqTotal, Narrow, TreeOver, NoneBelow, Whole, ValidDesc, FlatStart, BitTotal, StaticTotal, TallyL, TallyD, AllCovered, AllSends, SymbolsBelow, EncTokens, CodeFor, Codes, Forced, Optimal,
         L_DESC, D_DESC, CodeSeq, CodeLens, FixedReady, FixedBody, HeaderFit, Sendable, Header, RunsFrom, TwoTrees, AllSound, GoodDynamic, DynamicBody;
    Descs();
    FixedTotals(toks, freqL, freqD, freqBl, NoCounts(288), NoCounts(30));
    var ll, lcodes, fl1, forcedL;
    ghost var tl, depthL, td, depthD, tb, depthB;
    BlockTotals(freqL, freqD, freqBl, toks);
    ll, lcodes, opt, stat, fl1, forcedL, tl, depthL := BuildTree(heap, freqL, NoCounts(|freqL|), L_DESC, 0, 0);
    var dl, dcodes, fd1, forcedD;
    dl, dcodes, opt, stat, fd1, forcedD, td, depthD := BuildTree(heap, freqD, NoCounts(|freqD|), D_DESC, opt, stat);
    DynamicCovers(toks, ll, lcodes, dl, dcodes, freqL, fl1, forcedL, freqD, fd1, forcedD);
    SendsCovered(ll, lcodes, dl, dcodes, toks);
    TwoTreesSizes(ll, dl);
    DynamicTotals(toks, freqL, freqD, freqBl, ll, dl);
    var cl, clcodes, blcodes;
    cl, clcodes, blcodes, opt, tb, depthB := BuildBlTree(heap, ll, dl, freqBl, NoCounts(|freqBl|), opt);
    grown := Grown3(tl, depthL, td, depthD, tb, depthB);
    t := Dynamic(ll, lcodes, dl, dcodes, cl, clcodes, blcodes);
    Bundle(t, toks);
  }

  lemma TwoTreesSizes(ll: seq<nat>, dl: seq<nat>)
    requires TwoTrees(ll, dl)
    ensures 257 <= |ll| <= L_CODES && 1 <= |dl| <= D_CODES
  {
  }

  lemma Bundle(t: Dynamic, toks: seq<Token>)
    requires Codes(t.lcodes, t.ll) && Codes(t.dcodes, t.dl) && AllSends(t.ll, t.lcodes, t.dl, t.dcodes, toks) && AllCovered(t.ll, t.dl, toks)
    requires END_BLOCK < |t.lcodes| && END_BLOCK < |t.ll| && t.ll[END_BLOCK] != 0
    requires HeaderFit(t.ll, t.dl, t.cl, t.blcodes) && Sendable(t.clcodes, t.cl, Runs(t.ll)) && Sendable(t.clcodes, t.cl, Runs(t.dl))
    ensures GoodDynamic(t, toks)
    ensures |BodyOf(t, toks)| == |Header(t.ll, t.dl, t.cl, t.blcodes)| + |EncTokens(t.ll, t.dl, toks)| + t.ll[END_BLOCK]
  {
    hide AllSends, AllCovered, HeaderFit, Sendable, CodeLens, EncTokens, Header, RunsFrom;
    assert HasCode(t.ll, END_BLOCK);
  }

  // ---------- writing a block ----------

  /** A block with the static trees. */
  method SendFixed(w: Writer, l: seq<Byte>, d: seq<nat>, f: seq<Byte>, lastLit: nat, t: Tables, lstatic: seq<nat>, dstatic: seq<nat>, eof: bool, ghost toks: seq<Token>)
    requires w.Valid() && GoodTables(t) && |lstatic| == 288 && Codes(lstatic, FIXED_LIT) && |dstatic| == 30 && Codes(dstatic, FIXED_DIST)
    requires |toks| == lastLit && Lcs(l, toks) && Dists(toks) <= d && FlagsAll(f, toks) && FixedReady(toks)
    modifies w, w.outbuf
    ensures w.Valid() && w.Bits() == After(old(w.Bits()), 1, eof, FixedBody(toks))
  {
    hide GoodTables, Codes, FIXED_LIT, FIXED_DIST, Dists, LowBits, Pow2, EncTokens, CodeSeq, AllCovered, AllSends, Writer.Bits, Writer.Valid;
    LcsSound(l, toks);
    FixedCovers(toks, lstatic, dstatic);
    FixedHasEnd();
    Powers();
    w.SendBits(2 + (if eof then 1 else 0), 3);
    CompressBlock(w, l, d, f, lastLit, t, FIXED_LIT, lstatic, FIXED_DIST, dstatic, toks);
    Join(old(w.Bits()), BlockStart(1, eof), EncTokens(FIXED_LIT, FIXED_DIST, toks), CodeSeq(FIXED_LIT, END_BLOCK));
  }

  lemma FixedHasEnd()
    ensures END_BLOCK < |FIXED_LIT| && FIXED_LIT[END_BLOCK] != 0
  {
  }

  lemma LcsSound(l: seq<Byte>, toks: seq<Token>)
    requires Lcs(l, toks)
    ensures AllSound(toks)
  {
  }

  lemma Join(a: seq<Bit>, b: seq<Bit>, c: seq<Bit>, d: seq<Bit>)
    ensures a + b + c + d == a + b + (c + d)
  {
  }

  /** A block with its own trees. */
  method SendDynamic(w: Writer, l: seq<Byte>, d: seq<nat>, f: seq<Byte>, lastLit: nat, t: Tables, dyn: Dynamic, eof: bool, ghost toks: seq<Token>)
    requires w.Valid() && GoodTables(t) && GoodDynamic(dyn, toks)
    requires |toks| == lastLit && Lcs(l, toks) && Dists(toks) <= d && FlagsAll(f, toks)
    modifies w, w.outbuf
    ensures w.Valid() && w.Bits() == After(old(w.Bits()), 2, eof, BodyOf(dyn, toks))
  {
    hide GoodTables, Codes, Dists, LowBits, Pow2, EncTokens, CodeSeq, AllCovered, AllSends, Header, HeaderFit, Sendable, CodeLens, RunsFrom, Writer.Bits, Writer.Valid;
    Powers();
    w.SendBits(4 + (if eof then 1 else 0), 3);
    SendAllTrees(w, dyn.ll, dyn.dl, dyn.cl, dyn.clcodes, dyn.blcodes);
    CompressBlock(w, l, d, f, lastLit, t, dyn.ll, dyn.lcodes, dyn.dl, dyn.dcodes, toks);
    Join3(old(w.Bits()), BlockStart(2, eof), Header(dyn.ll, dyn.dl, dyn.cl, dyn.blcodes), EncTokens(dyn.ll, dyn.dl, toks), CodeSeq(dyn.ll, END_BLOCK));
  }

  lemma Join3(a: seq<Bit>, b: seq<Bit>, c: seq<Bit>, d: seq<Bit>, e: seq<Bit>)
    ensures a + b + c + d + e == a + b + (c + d + e)
  {
  }

  /** A stored block. */
  method SendStored(w: Writer, data: seq<Byte>, eof: bool)
    requires w.Valid()
    modifies w, w.outbuf
    ensures w.Valid() && w.Bits() == After(old(w.Bits()), 0, eof, StoredBody(|old(w.Bits())|, data))
  {
    hide LowBits, Pow2, BytesToBits, Padding, StoredHeader, Writer.Bits, Writer.Valid;
    Powers();
    w.SendBits(0 + (if eof then 1 else 0), 3);
    ghost var at := |old(w.Bits())| + 3;
    w.CopyBlock(data, true);
    Join3(old(w.Bits()), BlockStart(0, eof), Padding(at), StoredHeader(|data|, true), BytesToBits(data));
  }

  ghost predicate FlagsAll(f: seq<Byte>, toks: seq<Token>) {
    forall j :: 0 <= j && 8 * j < |toks| ==> j < |f| && f[j] == FlagByte(toks, j)
  }

  /** The pending flags are saved before the block is written. */
  lemma {:induction false} SaveFlags(l: seq<Byte>, d: seq<nat>, f: seq<Byte>, lastDist: nat, lastFlags: nat, flags: nat, flagBit: nat, toks: seq<Token>)
    requires Stored(l, d, f, lastDist, lastFlags, flags, flagBit, toks)
    ensures lastFlags < |f| && flags < 256 && FlagsAll(f[lastFlags := flags as Byte], toks)
    ensures Lcs(l, toks) && Dists(toks) <= d && AllSound(toks)
  {
    hide FlagByte, Dists, Pow2;
    FlagFits(toks, lastFlags);
    assert d[..lastDist] <= d;
  }

  /** The stored size with its padding, as flush_block computes it. */
  lemma {:induction false} StoredSize(at: nat, data: seq<Byte>)
    ensures (at + 3 + 7) / 8 * 8 + (|data| + 4) * 8 == at + 3 + |StoredBody(at, data)|
  {
    hide LowBits, BytesToBits;
    var n := at + 3;
    assert (n + 7) / 8 * 8 == n + |Padding(n)|;
  }

  /** What the last block leaves after the last byte has been filled up. */
  lemma {:induction false} LastByte(bits: seq<Bit>, out: seq<Byte>)
    requires Finished(bits, out)
    ensures Inflate(bits + Padding(|bits|), []) == Got(out, Padding(|bits|))
  {
    hide Inflate, Padding;
  }

  class Coder {
    const w: Writer
    const heap: array<nat>
    const lbuf: array<Byte>
    const dbuf: array<nat>
    const flagBuf: array<Byte>
    const tables: Tables
    const lstatic: seq<nat>
    const dstatic: seq<nat>
    var freqL: seq<nat>
    var freqD: seq<nat>
    var freqBl: seq<nat>
    var lastLit: nat
    var lastDist: nat
    var lastFlags: nat
    var flags: nat
    var flagBit: nat
    var compressedLen: nat
    ghost var toks: seq<Token>   // the tokens of the current block

    /** The parts of the state that never change. */
    ghost predicate Set() {
      && heap.Length == HEAP_SIZE && lbuf.Length == LIT_BUFSIZE && dbuf.Length == DIST_BUFSIZE && flagBuf.Length == LIT_BUFSIZE / 8
      && lbuf != flagBuf && w.outbuf != lbuf && w.outbuf != flagBuf && heap != dbuf
      && GoodTables(tables) && |lstatic| == 288 && Codes(lstatic, FIXED_LIT) && |dstatic| == 30 && Codes(dstatic, FIXED_DIST)
    }

    /** The buffers are not the output buffer. */
    lemma Apart()
      requires Valid()
      ensures w.outbuf != lbuf && w.outbuf != flagBuf
    {
      hide GoodTables, Codes, Stored, Frequencies;
    }

    /** The buffers hold the tokens of the block, and the frequencies count them. */
    ghost predicate Valid()
      reads this, lbuf, dbuf, flagBuf
    {
      && Set() && lastLit == |toks|
      && Stored(lbuf[..], dbuf[..], flagBuf[..], lastDist, lastFlags, flags, flagBit, toks)
      && Frequencies(freqL, freqD, freqBl, toks)
    }

    constructor (out: Writer)
      ensures w == out && Valid() && toks == [] && lastLit == 0 && compressedLen == 0 && fresh(lbuf) && fresh(dbuf) && fresh(flagBuf) && fresh(heap)
    {
      hide GoodTables, Codes, FIXED_LIT, FIXED_DIST, Pow2, TallyL, TallyD;
      var t, lcodes, dcodes := CtInit();
      w := out;
      tables, lstatic, dstatic := t, lcodes, dcodes;
      heap := new nat[HEAP_SIZE](_ => 0);
      lbuf := new Byte[LIT_BUFSIZE](_ => 0);
      dbuf := new nat[DIST_BUFSIZE](_ => 0);
      flagBuf := new Byte[LIT_BUFSIZE / 8](_ => 0);
      freqL, freqD, freqBl := NoCounts(2 * L_CODES + 1)[END_BLOCK := 1], NoCounts(2 * D_CODES + 1), NoCounts(2 * BL_CODES + 1);
      lastLit, lastDist, lastFlags, flags, flagBit, compressedLen, toks := 0, 0, 0, 0, 1, 0, [];
      new;
      EmptyStored(lbuf[..], dbuf[..], flagBuf[..]);
      EmptyCounted(freqL, freqD, freqBl);
    }

    /** init_block */
    method InitBlock()
      requires Set() && |freqL| == 2 * L_CODES + 1 && |freqD| == 2 * D_CODES + 1 && |freqBl| == 2 * BL_CODES + 1
      modifies this`freqL, this`freqD, this`freqBl, this`lastLit, this`lastDist, this`lastFlags, this`flags, this`flagBit, this`toks
      ensures Valid() && toks == []
    {
      hide GoodTables, Codes, FIXED_LIT, FIXED_DIST, Pow2, TallyL, TallyD, Stored, Frequencies;
      freqL := NoCounts(L_CODES)[END_BLOCK := 1] + freqL[L_CODES..];
      freqD := NoCounts(D_CODES) + freqD[D_CODES..];
      freqBl := NoCounts(BL_CODES) + freqBl[BL_CODES..];
      lastLit, lastDist, lastFlags := 0, 0, 0;
      flags, flagBit := 0, 1;
      toks := [];
      EmptyStored(lbuf[..], dbuf[..], flagBuf[..]);
      EmptyCounted(freqL, freqD, freqBl);
    }

    /** The estimate of the compressed size that ct_tally makes from the distance frequencies. */
    method Estimate() returns (outLength: nat)
      requires |freqD| == 2 * D_CODES + 1
      ensures outLength == (lastLit * 8 + DistEstimate(freqD, D_CODES)) / 8
    {
      outLength := lastLit * 8;
      for dcode := 0 to D_CODES
        invariant outLength == lastLit * 8 + DistEstimate(freqD, dcode)
      {
        outLength := outLength + freqD[dcode] * (5 + DIST_EXTRA[dcode]);
      }
      outLength := outLength / 8;
    }

    /** The part of ct_tally that stores the token and counts its symbols. */
    method Record(dist: nat, lc: Byte)
      requires Valid() && lastLit + 1 < LIT_BUFSIZE && dist <= 32768
      modifies this`freqL, this`freqD, this`lastLit, this`lastDist, this`lastFlags, this`flags, this`flagBit, this`toks, lbuf, dbuf, flagBuf
      ensures Valid() && toks == old(toks) + [if dist == 0 then Lit(lc) else Ref(lc + 3, dist)]
    {
      hide Set, Stored, Frequencies;
      Sizes();
      Count(dist, lc);
      Store(dist, lc);
      toks := toks + [if dist == 0 then Lit(lc) else Ref(lc + 3, dist)];
    }

    lemma Sizes()
      requires Set()
      ensures lbuf.Length == LIT_BUFSIZE && dbuf.Length == DIST_BUFSIZE && flagBuf.Length == LIT_BUFSIZE / 8 && lbuf != flagBuf
    {
      hide GoodTables, Codes, FIXED_LIT, FIXED_DIST;
    }

    /** The token goes into the three buffers. */
    method Store(dist: nat, lc: Byte)
      requires lbuf.Length == LIT_BUFSIZE && dbuf.Length == DIST_BUFSIZE && flagBuf.Length == LIT_BUFSIZE / 8 && lbuf != flagBuf
      requires lastLit == |toks| && lastLit + 1 < LIT_BUFSIZE && dist <= 32768
      requires Stored(lbuf[..], dbuf[..], flagBuf[..], lastDist, lastFlags, flags, flagBit, toks)
      modifies this`lastLit, this`lastDist, this`lastFlags, this`flags, this`flagBit, lbuf, dbuf, flagBuf
      ensures lastLit == old(lastLit) + 1
      ensures Stored(lbuf[..], dbuf[..], flagBuf[..], lastDist, lastFlags, flags, flagBit,
                     toks + [if dist == 0 then Lit(lc) else Ref(lc + 3, dist)])
    {
      hide Stored;
      ghost var t := if dist == 0 then Lit(lc) else Ref(lc + 3, dist);
      StoredSnoc(lbuf[..], dbuf[..], flagBuf[..], lastDist, lastFlags, flags, flagBit, toks, t);
      StoredSizes(lbuf[..], dbuf[..], flagBuf[..], lastDist, lastFlags, flags, flagBit, toks);
      lbuf[lastLit] := lc;
      assert lbuf[..] == old(lbuf[..])[lastLit := lc];
      lastLit := lastLit + 1;
      if dist != 0 {
        dbuf[lastDist] := dist - 1;
        assert dbuf[..] == old(dbuf[..])[lastDist := dist - 1];
        lastDist := lastDist + 1;
        flags := flags + flagBit;
      }
      flagBit := flagBit * 2;
      if lastLit % 8 == 0 {
        flagBuf[lastFlags] := flags;
        assert flagBuf[..] == old(flagBuf[..])[lastFlags := flags];
        lastFlags := lastFlags + 1;
        flags := 0;
        flagBit := 1;
      }
    }

    /** The frequencies with one more token. */
    method Count(dist: nat, lc: Byte)
      requires Set() && Frequencies(freqL, freqD, freqBl, toks) && dist <= 32768
      modifies this`freqL, this`freqD
      ensures Frequencies(freqL, freqD, freqBl, toks + [if dist == 0 then Lit(lc) else Ref(lc + 3, dist)])
    {
      hide GoodTables, Codes, FIXED_LIT, FIXED_DIST, Frequencies, LengthCode, DistCode, DCode;
      CountedSnoc(freqL, freqD, freqBl, toks, if dist == 0 then Lit(lc) else Ref(lc + 3, dist));
      if dist == 0 {
        freqL := Bump(freqL, lc);
      } else {
        TablesAt(tables, lc, dist - 1);
        freqL := Bump(freqL, tables.lengthCode[lc] + 257);
        freqD := Bump(freqD, DCode(tables, dist - 1));
      }
    }

    /** ct_tally: one more token; a block that is full must be flushed. */
    method CtTally(dist: nat, lc: Byte, inLength: nat) returns (flush: bool)
      requires Valid() && lastLit + 1 < LIT_BUFSIZE && dist <= 32768
      modifies this`freqL, this`freqD, this`lastLit, this`lastDist, this`lastFlags, this`flags, this`flagBit, this`toks, lbuf, dbuf, flagBuf
      ensures Valid() && toks == old(toks) + [if dist == 0 then Lit(lc) else Ref(lc + 3, dist)] && |freqD| >= D_CODES
      ensures flush <==> |toks| == 8191 || |Dists(toks)| == 8192 ||
                         (|toks| % 4096 == 0 && |Dists(toks)| < |toks| / 2 && (|toks| * 8 + DistanceBits(toks)) / 8 < inLength / 2)
      ensures flush <==> FullBlock(toks, inLength)
    {
      hide Coder.Set, TallyL, TallyD, Stored, DistEstimate, DistanceBits, Dists;
      Record(dist, lc);
      StoredDists(lbuf[..], dbuf[..], flagBuf[..], lastDist, lastFlags, flags, flagBit, toks);
      EstimateIs(freqL, freqD, freqBl, toks);
      flush := false;
      if lastLit % 0x1000 == 0 {
        var outLength := Estimate();
        if lastDist < lastLit / 2 && outLength < inLength / 2 { return true; }
      }
      return lastLit == LIT_BUFSIZE - 1 || lastDist == DIST_BUFSIZE;
    }

    /** The buffers are complete: the flags of the last tokens have been saved. */
    ghost predicate Complete()
      reads this, lbuf, dbuf, flagBuf
    {
      && Set() && lastLit == |toks| < LIT_BUFSIZE
      && Lcs(lbuf[..], toks) && Dists(toks) <= dbuf[..] && FlagsAll(flagBuf[..], toks)
    }

    /** What is sent for a block of this kind. */
    static ghost function BodyFor(kind: nat, at: nat, data: seq<Byte>, toks: seq<Token>, t: Dynamic): seq<Bit>
      requires GoodDynamic(t, toks) && FixedReady(toks)
    {
      if kind == 0 then StoredBody(at, data) else if kind == 1 then FixedBody(toks) else BodyOf(t, toks)
    }

    /** No kind of block is cheaper, in whole bytes from the start of the block: a stored block, if the bytes are still
        there, takes four more than its data; the other two take their three bits and `fixed` or `own` bits more.  Among
        equals, the stored block comes first and the one with the fixed codes second. */
    static ghost predicate Cheapest(kind: nat, data: seq<Byte>, available: bool, fixed: nat, own: nat) {
      match kind
      case 0 => available && |data| + 4 <= (fixed + 3 + 7) / 8 && |data| + 4 <= (own + 3 + 7) / 8
      case 1 => (fixed + 3 + 7) / 8 <= (own + 3 + 7) / 8 && (available ==> (fixed + 3 + 7) / 8 < |data| + 4)
      case _ => (own + 3 + 7) / 8 < (fixed + 3 + 7) / 8 && (available ==> (own + 3 + 7) / 8 < |data| + 4)
    }

    /** The bits `after` are those before with a block of the cheapest kind. */
    static ghost predicate Chosen(before: seq<Bit>, after: seq<Bit>, kind: nat, eof: bool, data: seq<Byte>, available: bool, toks: seq<Token>, t: Dynamic) {
      && kind < 3 && (kind == 0 ==> available) && GoodDynamic(t, toks) && FixedReady(toks)
      && Cheapest(kind, data, available, |FixedBody(toks)|, |BodyOf(t, toks)|)
      && after == After(before, kind, eof, BodyFor(kind, |before|, data, toks, t))
    }

    /** A block of any kind takes no more than any other would, except for the ten bits by which its header and the rest of
        the last byte can move a stored block. */
    static lemma {:induction false} CheapestSize(before: seq<Bit>, after: seq<Bit>, kind: nat, eof: bool, data: seq<Byte>, available: bool,
                                                 toks: seq<Token>, t: Dynamic)
      requires Chosen(before, after, kind, eof, data, available, toks, t)
      ensures var sent := |after| - |before|;
              && sent <= |FixedBody(toks)| + 20 && sent <= |BodyOf(t, toks)| + 20 && (available ==> sent <= 8 * |data| + 42)
              && (kind != 0 ==> sent <= |FixedBody(toks)| + 10 && sent <= |BodyOf(t, toks)| + 10 && (available ==> sent <= 8 * |data| + 24))
    {
      hide FixedBody, BodyOf, LowBits, BytesToBits, GoodDynamic, FixedReady;
      if kind == 0 { StoredSize(|before|, data); }
    }

    /** The decision of flush_block between a stored, a static and a dynamic block.  The output cannot be
        rewritten (seekable() is 0), so that a stored file is never made. */
    method SendBlock(data: seq<Byte>, available: bool, storedLen: nat, eof: bool, t: Dynamic, opt: nat, stat: nat,
                     ghost out: seq<Byte>, ghost after: seq<Byte>) returns (ghost kind: nat)
      requires Complete() && w.Valid() && Measured(t, toks, opt, stat) && Gives(out, toks, data, available, storedLen, after)
      requires Continues(w.Bits(), out) && compressedLen == |w.Bits()|
      modifies this`compressedLen, w, w.outbuf
      ensures w.Valid() && compressedLen == |w.Bits()|
      ensures if eof then Finished(w.Bits(), after) else Continues(w.Bits(), after)
      ensures Chosen(old(w.Bits()), w.Bits(), kind, eof, data, available, toks, t)
    {
      hide GoodTables, Codes, FIXED_LIT, FIXED_DIST, Dists, FlagsAll, Lcs, GoodDynamic, AllCovered, HasCode, BodyOf, FixedBody, StoredBody, Playable, Play,
           Continues, Finished, BlockMeans, Writer.Bits, Writer.Valid, After;
      var optLenb, staticLenb := (opt + 3 + 7) / 8, (stat + 3 + 7) / 8;
      if staticLenb <= optLenb { optLenb := staticLenb; }
      ghost var before := w.Bits();
      if storedLen + 4 <= optLenb && available {
        StoredBlock(|before|, data, out);
        NextBlock(before, 0, eof, StoredBody(|before|, data), out, out + data);
        StoredSize(|before|, data);
        compressedLen := (compressedLen + 3 + 7) / 8 * 8;
        compressedLen := compressedLen + (storedLen + 4) * 8;
        SendStored(w, data, eof);
        kind := 0;
      } else if staticLenb == optLenb {
        FixedMeans(|before|, toks, out);
        NextBlock(before, 1, eof, FixedBody(toks), out, Play(out, toks));
        SendFixed(w, lbuf[..], dbuf[..], flagBuf[..], lastLit, tables, lstatic, dstatic, eof, toks);
        compressedLen := compressedLen + 3 + stat;
        kind := 1;
      } else {
        DynamicMeans(|before|, t, toks, out);
        NextBlock(before, 2, eof, BodyOf(t, toks), out, Play(out, toks));
        SendDynamic(w, lbuf[..], dbuf[..], flagBuf[..], lastLit, tables, t, eof, toks);
        compressedLen := compressedLen + 3 + opt;
        kind := 2;
      }
    }

    /** flush_block: the tokens become one block; compressed_len is exactly the number of bits sent. */
    method FlushBlock(data: seq<Byte>, available: bool, storedLen: nat, eof: bool, ghost out: seq<Byte>)
      returns (bytes: nat, ghost grown: Grown3, ghost kind: nat, ghost t: Dynamic, ghost sent: seq<Bit>)
      requires Valid() && w.Valid() && Playable(out, toks) && (available ==> |data| == storedLen && Play(out, toks) == out + data)
      requires Continues(w.Bits(), out) && compressedLen == |w.Bits()|
      modifies this`freqL, this`freqD, this`freqBl, this`lastLit, this`lastDist, this`lastFlags, this`flags, this`flagBit, this`toks, this`compressedLen,
               heap, flagBuf, w, w.outbuf
      ensures Valid() && w.Valid() && toks == [] && AllNarrow(grown)
      ensures !eof ==> compressedLen == |w.Bits()| && Continues(w.Bits(), old(Play(out, toks)))
      ensures eof ==> bytes == |w.Out()| && Decompresses(w.Out(), old(Play(out, toks)))
      ensures Chosen(old(w.Bits()), sent, kind, eof, data, available, old(toks), t) && w.Bits() == if eof then sent + Padding(|sent|) else sent
    {
      hide GoodTables, Codes, FIXED_LIT, FIXED_DIST, Dists, FlagsAll, Lcs, GoodDynamic, FixedReady, BodyOf, FixedBody, Playable, Play,
           Continues, Finished, Writer.Bits, Writer.Valid, Writer.Out, TallyL, TallyD, Stored, Decompresses, BytesToBits, Padding, AllSound, AllNarrow, Coder.Chosen;
      SaveFlags(lbuf[..], dbuf[..], flagBuf[..], lastDist, lastFlags, flags, flagBit, toks);
      StoredSizes(lbuf[..], dbuf[..], flagBuf[..], lastDist, lastFlags, flags, flagBit, toks);
      flagBuf[lastFlags] := flags as Byte;
      assert flagBuf[..] == old(flagBuf[..])[lastFlags := flags as Byte];
      var own, opt, stat;
      own, opt, stat, grown := BuildTrees(heap, freqL, freqD, freqBl, toks);
      t := own;
      ghost var played := Play(out, toks);
      kind := SendBlock(data, available, storedLen, eof, own, opt, stat, out, played);
      sent := w.Bits();
      InitBlock();
      if eof {
        w.BiWindup();
        LastBytes(sent, played, w.Out());
        compressedLen := compressedLen + 7;
      }
      bytes := compressedLen / 8;
    }
  }

  /** An inflater makes `out` of these bytes, with less than a byte of padding left over. */
  ghost predicate Decompresses(bytes: seq<Byte>, out: seq<Byte>) {
    var r := Inflate(BytesToBits(bytes), []);
    r.Got? && r.value == out && |r.rest| < 8
  }

  lemma {:induction false} LastBytes(bits: seq<Bit>, out: seq<Byte>, bytes: seq<Byte>)
    requires Finished(bits, out) && BytesToBits(bytes) == bits + Padding(|bits|)
    ensures Decompresses(bytes, out) && |bytes| == (|bits| + 7) / 8
  {
    hide Inflate, BytesToBits, LowBits, Finished;
    LastByte(bits, out);
    var n := |bits|;
    assert 8 * |bytes| == n + |Padding(n)|;
  }

  lemma {:induction false} FixedMeans(at: nat, toks: seq<Token>, out: seq<Byte>)
    requires Playable(out, toks) && FixedReady(toks)
    ensures BlockMeans(at, 1, FixedBody(toks), out, Play(out, toks))
  {
    hide Playable, Play, BlockMeans, FixedBody, FIXED_LIT, FIXED_DIST, AllCovered, HasCode;
    FixedBlock(at, toks, out);
  }

  lemma {:induction false} DynamicMeans(at: nat, t: Dynamic, toks: seq<Token>, out: seq<Byte>)
    requires Playable(out, toks) && GoodDynamic(t, toks)
    ensures BlockMeans(at, 2, BodyOf(t, toks), out, Play(out, toks))
  {
    hide Playable, Play, BlockMeans, DynamicBody, AllCovered, HasCode, HeaderFit, CodeLens, Codes, AllSends, Sendable, RunsFrom;
    DynamicBlock(at, t.ll, t.dl, t.cl, t.blcodes, toks, out);
  }

  function DistEstimate(freqD: seq<nat>, n: nat): nat
    requires n <= D_CODES && n <= |freqD|
  {
    if n == 0 then 0 else DistEstimate(freqD, n - 1) + freqD[n - 1] * (5 + DIST_EXTRA[n - 1])
  }

  lemma StoredDists(l: seq<Byte>, d: seq<nat>, f: seq<Byte>, lastDist: nat, lastFlags: nat, flags: nat, flagBit: nat, toks: seq<Token>)
    requires Stored(l, d, f, lastDist, lastFlags, flags, flagBit, toks)
    ensures lastDist == |Dists(toks)| && AllSound(toks)
  {
    hide Dists, Pow2;
  }

  /** Five bits and its extra bits for the distance of every match. */
  function DistanceBits(toks: seq<Token>): nat {
    if toks == [] then 0
    else
      var n := |toks| - 1;
      DistanceBits(toks[..n]) + (if toks[n].Ref? && 1 <= toks[n].dist <= 32768 then 5 + DIST_EXTRA[DistCode(toks[n].dist)] else 0)
  }

  /** When a block is sent: its buffers are full, or, every 4096 tokens, it promises to halve the input. */
  predicate FullBlock(toks: seq<Token>, inLength: nat) {
    || |toks| == LIT_BUFSIZE - 1 || |Dists(toks)| == DIST_BUFSIZE
    || (|toks| % 0x1000 == 0 && |Dists(toks)| < |toks| / 2 && (|toks| * 8 + DistanceBits(toks)) / 8 < inLength / 2)
  }

  lemma {:induction false} BumpEstimate(freqD: seq<nat>, c: nat, n: nat)
    requires n <= D_CODES && n <= |freqD| && c < |freqD|
    ensures DistEstimate(Bump(freqD, c), n) == DistEstimate(freqD, n) + (if c < n then 5 + DIST_EXTRA[c] else 0)
    decreases n
  {
    hide DIST_EXTRA;
    if n > 0 { BumpEstimate(freqD, c, n - 1); }
  }

  lemma {:induction false} SameEstimate(freqD: seq<nat>, freqD': seq<nat>, n: nat)
    requires n <= D_CODES && n <= |freqD| && n <= |freqD'| && freqD[..n] == freqD'[..n]
    ensures DistEstimate(freqD, n) == DistEstimate(freqD', n)
    decreases n
  {
    hide DIST_EXTRA;
    if n > 0 {
      assert freqD[..n - 1] == freqD[..n][..n - 1] == freqD'[..n - 1];
      assert freqD[n - 1] == freqD[..n][n - 1] == freqD'[n - 1];
      SameEstimate(freqD, freqD', n - 1);
    }
  }

  lemma {:induction false} NoEstimate(n: nat)
    requires n <= D_CODES
    ensures DistEstimate(NoCounts(D_CODES), n) == 0
    decreases n
  {
    hide DIST_EXTRA;
    if n > 0 { NoEstimate(n - 1); }
  }

  lemma {:induction false} TallyEstimate(toks: seq<Token>)
    requires AllSound(toks)
    ensures DistEstimate(TallyD(toks), D_CODES) == DistanceBits(toks)
    decreases |toks|
  {
    hide DistEstimate, DIST_EXTRA, LitSym, DistCode;
    if toks == [] {
      NoEstimate(D_CODES);
    } else {
      var n := |toks| - 1;
      TallyEstimate(toks[..n]);
      if toks[n].Ref? { BumpEstimate(TallyD(toks[..n]), DistCode(toks[n].dist), D_CODES); }
    }
  }

  lemma {:induction false} EstimateIs(freqL: seq<nat>, freqD: seq<nat>, freqBl: seq<nat>, toks: seq<Token>)
    requires Frequencies(freqL, freqD, freqBl, toks) && AllSound(toks)
    ensures D_CODES <= |freqD| && DistEstimate(freqD, D_CODES) == DistanceBits(toks)
  {
    hide TallyL, TallyD, DistEstimate, DistanceBits;
    TallyEstimate(toks);
    SameEstimate(freqD, TallyD(toks), D_CODES);
  }

  lemma EmptyStored(l: seq<Byte>, d: seq<nat>, f: seq<Byte>)
    requires |l| == LIT_BUFSIZE && |d| == DIST_BUFSIZE && |f| == LIT_BUFSIZE / 8
    ensures Stored(l, d, f, 0, 0, 0, 1, [])
  {
    NoFlags([], 0);
    assert d[..0] == [];
  }

  lemma EmptyCounted(freqL: seq<nat>, freqD: seq<nat>, freqBl: seq<nat>)
    requires |freqL| == 2 * L_CODES + 1 && |freqD| == 2 * D_CODES + 1 && |freqBl| == 2 * BL_CODES + 1
    requires forall i :: 0 <= i < L_CODES ==> freqL[i] == if i == END_BLOCK then 1 else 0
    requires (forall i :: 0 <= i < D_CODES ==> freqD[i] == 0) && (forall i :: 0 <= i < BL_CODES ==> freqBl[i] == 0)
    ensures Frequencies(freqL, freqD, freqBl, [])
  {
    assert freqL[..L_CODES] == TallyL([]);
    assert freqD[..D_CODES] == TallyD([]);
  }

  lemma StoredSizes(l: seq<Byte>, d: seq<nat>, f: seq<Byte>, lastDist: nat, lastFlags: nat, flags: nat, flagBit: nat, toks: seq<Token>)
    requires Stored(l, d, f, lastDist, lastFlags, flags, flagBit, toks)
    ensures lastDist <= |toks| < LIT_BUFSIZE && lastFlags == |toks| / 8
  {
    hide Pow2, FlagByte;
  }

  lemma {:induction false} CountedSnoc(freqL: seq<nat>, freqD: seq<nat>, freqBl: seq<nat>, toks: seq<Token>, t: Token)
    requires Frequencies(freqL, freqD, freqBl, toks)
    ensures |freqL| == 2 * L_CODES + 1 && |freqD| == 2 * D_CODES + 1
    ensures Frequencies(Bump(freqL, LitSym(t)), if t.Ref? then Bump(freqD, DistCode(t.dist)) else freqD, freqBl, toks + [t])
  {
    hide TallyL, TallyD, LengthCode, DistCode;
    TallySnoc(toks, t);
    assert Bump(freqL, LitSym(t))[..L_CODES] == Bump(freqL[..L_CODES], LitSym(t));
    if t.Ref? { assert Bump(freqD, DistCode(t.dist))[..D_CODES] == Bump(freqD[..D_CODES], DistCode(t.dist)); }
  }
}
