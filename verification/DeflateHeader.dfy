/** build_bl_tree: the code for the bit lengths, and the exact size of a dynamic block's header. */
module DeflateHeader {
  import opened Arithmetic
  import opened BitSeq
  import opened HuffmanLengths
  import opened HuffmanRepair
  import opened HuffmanBuild
  import opened HuffmanDepth
  import opened HuffmanTree
  import opened HuffmanGen
  import opened HuffmanCodes
  import opened TreeBuilder
  import opened DeflateFormat
  import opened DeflateTokens
  import opened DeflateRuns
  import opened DeflateTrees

  const BL_EXTRA: seq<nat> := [0, 0, 0, 0, 0, 0, 0, 0, 0, 0, 0, 0, 0, 0, 0, 0, 2, 3, 7]

  /** The three alphabets: l_desc, d_desc and bl_desc. */
  const L_DESC := Desc(LENGTH_EXTRA, 257, L_CODES, 15, true, FIXED_LIT)
  const D_DESC := Desc(DIST_EXTRA, 0, D_CODES, 15, true, FIXED_DIST)
  const BL_DESC := Desc(BL_EXTRA, 0, BL_CODES, 7, false, [])

  lemma Descs()
    ensures ValidDesc(L_DESC) && FlatStart(L_DESC) && ValidDesc(D_DESC) && FlatStart(D_DESC) && ValidDesc(BL_DESC) && FlatStart(BL_DESC)
  {
    hide ValidDesc, FlatStart, L_DESC, D_DESC, BL_DESC;
    LitDesc();
    DistDesc();
    BlDesc();
  }

  lemma LitDesc()
    ensures ValidDesc(L_DESC) && FlatStart(L_DESC)
  {
    hide Pow2;
    Pow2Fifteen();
  }

  lemma DistDesc()
    ensures ValidDesc(D_DESC) && FlatStart(D_DESC)
  {
    hide Pow2;
    Pow2Fifteen();
    assert DIST_EXTRA[0] == 0 && DIST_EXTRA[1] == 0 && DIST_EXTRA[2] == 0;
  }

  lemma BlDesc()
    ensures ValidDesc(BL_DESC) && FlatStart(BL_DESC)
  {
    hide Pow2;
    Powers();
  }

  // ---------- counting bits by frequency ----------

  lemma {:induction false} BumpTotal(ls: seq<nat>, freq: seq<nat>, d: Desc, m: nat, s: nat)
    requires ValidDesc(d) && m <= d.elems && m <= |ls| && m <= |freq| && s < |freq|
    ensures BitTotal(ls, Bump(freq, s), d, m) == BitTotal(ls, freq, d, m) + (if s < m then ls[s] + Xbits(d, s) else 0)
    decreases m
  {
    hide Pow2, Xbits;
    if m > 0 {
      BumpTotal(ls, freq, d, m - 1, s);
      if s == m - 1 { Distribute(freq[s], 1, ls[s] + Xbits(d, s)); }
    }
  }

  lemma RunExtraBits(r: Run)
    requires SoundRun(r) && ValidDesc(BL_DESC)
    ensures RunExtra(r).1 == Xbits(BL_DESC, RunSym(r))
  {
    hide Pow2;
    if r.Len? {
      var l := r.l;
      assert l == 0 || l == 1 || l == 2 || l == 3 || l == 4 || l == 5 || l == 6 || l == 7 || l == 8 || l == 9 || l == 10
          || l == 11 || l == 12 || l == 13 || l == 14 || l == 15;
    }
  }

  /** The bits of the runs are the bits of their symbols, counted by frequency. */
  lemma {:induction false} RunBits(cl: seq<nat>, freq: seq<nat>, runs: seq<Run>)
    requires ValidDesc(BL_DESC) && |cl| == BL_CODES && RunsCovered(cl, runs) && |freq| >= BL_CODES
    ensures SoundRuns(runs)
    ensures BitTotal(cl, TallyRuns(freq, runs), BL_DESC, BL_CODES) == BitTotal(cl, freq, BL_DESC, BL_CODES) + |EncRuns(cl, runs)|
    decreases |runs|
  {
    hide BitTotal, Xbits, ValidDesc, LowBits, CodeSeq, HasCode;
    assert SoundRuns(runs) by { forall i | 0 <= i < |runs| ensures SoundRun(runs[i]) { assert RunCovered(cl, runs[i]); } }
    if runs != [] {
      var s := RunSym(runs[0]);
      RunBits(cl, Bump(freq, s), runs[1..]);
      BumpTotal(cl, freq, BL_DESC, BL_CODES, s);
      RunExtraBits(runs[0]);
      assert |EncRun(cl, runs[0])| == cl[s] + Xbits(BL_DESC, s);
    }
  }

  lemma {:induction false} OrderSize(cl: seq<nat>, k: nat, n: nat)
    requires k <= n <= BL_CODES == |cl|
    ensures |EncOrder(cl, k, n)| == 3 * (n - k)
    decreases n - k
  {
    if k < n { OrderSize(cl, k + 1, n); }
  }

  lemma {:induction false} TallyCounts(freq: seq<nat>, runs: seq<Run>, s: nat)
    requires SoundRuns(runs) && |freq| >= BL_CODES && s < |freq|
    ensures TallyRuns(freq, runs)[s] >= freq[s]
    decreases |runs|
  {
    if runs != [] { TallyCounts(Bump(freq, RunSym(runs[0])), runs[1..], s); }
  }

  lemma {:induction false} TallyHas(freq: seq<nat>, runs: seq<Run>, i: nat)
    requires SoundRuns(runs) && |freq| >= BL_CODES && i < |runs|
    ensures TallyRuns(freq, runs)[RunSym(runs[i])] > 0
    decreases |runs|
  {
    var next := Bump(freq, RunSym(runs[0]));
    if i == 0 { TallyCounts(next, runs[1..], RunSym(runs[0])); } else { TallyHas(next, runs[1..], i - 1); }
  }

  // ---------- a code with unused symbols after it ----------

  lemma {:induction false} PadSame(lens: seq<nat>, k: nat, n: nat, b: nat)
    requires n <= |lens| + k && b >= 1
    ensures Same(lens + Times(0, k), n, b) == Same(lens, if n <= |lens| then n else |lens|, b)
    decreases n
  {
    if n > 0 { PadSame(lens, k, n - 1, b); }
  }

  /** Unused symbols at the end change no code. */
  lemma {:induction false} PadCodes(codes: seq<nat>, lens: seq<nat>, k: nat)
    requires Codes(codes, lens)
    ensures Codes(codes, lens + Times(0, k)) && CountsOf(lens + Times(0, k)) == CountsOf(lens)
  {
    hide Same, Kraft, Pow2, Reverse, First;
    var cl := lens + Times(0, k);
    forall b | 1 <= b <= MAX_BITS ensures CountsOf(cl)[b] == CountsOf(lens)[b] { PadSame(lens, k, |cl|, b); }
    assert CountsOf(cl) == CountsOf(lens);
    forall n | 0 <= n < |codes| && cl[n] != 0 ensures HasCode(cl, n) && codes[n] == Reverse(CodeOf(cl, n), cl[n]) {
      PadSame(lens, k, n, lens[n]);
    }
  }

  // ---------- at least four bit length codes ----------

  /** Without a length there is nothing to copy but zeros. */
  lemma {:induction false} OnlyZeros(acc: seq<nat>, runs: seq<Run>)
    requires (forall i :: 0 <= i < |acc| ==> acc[i] == 0) && (forall i :: 0 <= i < |runs| ==> !runs[i].Len?)
    ensures forall i :: 0 <= i < |Expand(acc, runs)| ==> Expand(acc, runs)[i] == 0
    decreases |runs|
  {
    if runs != [] { OnlyZeros(Grow(acc, runs[0]), runs[1..]); }
  }

  /** A tree with a code has at least one run that is a length. */
  lemma {:induction false} SomeLength(lens: seq<nat>) returns (i: nat)
    requires lens != [] && lens[|lens| - 1] != 0 && forall k :: 0 <= k < |lens| ==> lens[k] < 16
    ensures i < |Runs(lens)| && Runs(lens)[i].Len?
  {
    hide RunsFrom, Expand;
    RunsExpand(lens, 0, -1, 0, []);
    assert [] + lens[..0] == [] && [] + lens == lens;
    if forall k :: 0 <= k < |Runs(lens)| ==> !Runs(lens)[k].Len? {
      OnlyZeros([], Runs(lens));
      assert false;
    }
    i :| 0 <= i < |Runs(lens)| && Runs(lens)[i].Len?;
  }

  // ---------- build_bl_tree ----------

  ghost predicate TwoTrees(ll: seq<nat>, dl: seq<nat>) {
    && 257 <= |ll| <= 286 && 1 <= |dl| <= 30 && ll[|ll| - 1] != 0
    && (forall i :: 0 <= i < |ll| ==> ll[i] < 16) && (forall i :: 0 <= i < |dl| ==> dl[i] < 16)
    && CompleteCode(ll) && CompleteCode(dl) && ll[END_BLOCK] != 0
  }

  /** Every symbol that was counted has a code. */
  lemma {:induction false} RunsHaveCodes(freq: seq<nat>, freq1: seq<nat>, forced: seq<nat>, lens: seq<nat>, codes: seq<nat>, runs: seq<Run>)
    requires |freq| >= BL_CODES && Forced(freq, freq1, forced) && CodeFor(lens, freq1, BL_DESC) && Codes(codes, lens) && |codes| == |lens|
    requires SoundRuns(runs) && forall i :: 0 <= i < |runs| ==> freq[RunSym(runs[i])] > 0
    ensures |lens| <= BL_CODES && Sendable(codes, lens + Times(0, BL_CODES - |lens|), runs) && ShortLens(lens + Times(0, BL_CODES - |lens|))
    ensures CompleteCode(lens + Times(0, BL_CODES - |lens|))
  {
    hide Kraft, Pow2, CodeLens, CountsOf, CodeOf, Reverse, SoundRun;
    var cl := lens + Times(0, BL_CODES - |lens|);
    PadCodes(codes, lens, BL_CODES - |lens|);
    forall i | 0 <= i < |runs| ensures RunCovered(cl, runs[i]) && RunSym(runs[i]) < |codes| {
      var s := RunSym(runs[i]);
      assert freq1[s] != 0;
      assert s < |lens| && lens[s] != 0;
    }
  }

  lemma {:induction false} TallyTwice(freq: seq<nat>, ll: seq<nat>, dl: seq<nat>)
    requires |freq| >= BL_CODES && SoundRuns(Runs(ll)) && SoundRuns(Runs(dl))
    ensures var f := TallyRuns(TallyRuns(freq, Runs(ll)), Runs(dl));
            && (forall i :: 0 <= i < |Runs(ll)| ==> f[RunSym(Runs(ll)[i])] > 0)
            && (forall i :: 0 <= i < |Runs(dl)| ==> f[RunSym(Runs(dl)[i])] > 0)
  {
    hide TallyRuns, RunsFrom;
    var g := TallyRuns(freq, Runs(ll));
    forall i | 0 <= i < |Runs(ll)| ensures TallyRuns(g, Runs(dl))[RunSym(Runs(ll)[i])] > 0 {
      TallyHas(freq, Runs(ll), i);
      TallyCounts(g, Runs(dl), RunSym(Runs(ll)[i]));
    }
    forall i | 0 <= i < |Runs(dl)| ensures TallyRuns(g, Runs(dl))[RunSym(Runs(dl)[i])] > 0 { TallyHas(g, Runs(dl), i); }
  }

  /** The size of the header. */
  lemma {:induction false} HeaderSize(ll: seq<nat>, dl: seq<nat>, cl: seq<nat>, n: nat, freq: seq<nat>)
    requires ValidDesc(BL_DESC) && HeaderFit(ll, dl, cl, n) && |freq| >= BL_CODES && forall i :: 0 <= i < BL_CODES ==> freq[i] == 0
    ensures SoundRuns(Runs(ll)) && SoundRuns(Runs(dl))
    ensures |Header(ll, dl, cl, n)| == 14 + 3 * n + BitTotal(cl, TallyRuns(TallyRuns(freq, Runs(ll)), Runs(dl)), BL_DESC, BL_CODES)
  {
    hide ValidDesc, TallyRuns, RunsFrom, BitTotal, EncRuns, EncOrder, CodeLens, RunsCovered;
    RunBits(cl, freq, Runs(ll));
    RunBits(cl, TallyRuns(freq, Runs(ll)), Runs(dl));
    OrderSize(cl, 0, n);
    NoBits(cl, freq, BL_CODES);
  }

  lemma {:induction false} NoBits(cl: seq<nat>, freq: seq<nat>, m: nat)
    requires ValidDesc(BL_DESC) && m <= BL_CODES <= |freq| && |cl| == BL_CODES && forall i :: 0 <= i < BL_CODES ==> freq[i] == 0
    ensures BitTotal(cl, freq, BL_DESC, m) == 0
    decreases m
  {
    hide ValidDesc, Xbits;
    if m > 0 { NoBits(cl, freq, m - 1); }
  }

  /** The last bit length code that must be sent, plus one. */
  method CountBlCodes(cl: seq<nat>) returns (blcodes: nat)
    requires |cl| == BL_CODES && exists s :: 0 <= s < 16 && cl[s] != 0
    ensures 4 <= blcodes <= BL_CODES && forall s :: 0 <= s < BL_CODES && ORDER_OF[s] >= blcodes ==> cl[s] == 0
  {
    ghost var s0 :| 0 <= s0 < 16 && cl[s0] != 0;
    OrderInverse(s0);
    var index := BL_CODES - 1;
    while index >= 3
      invariant ORDER_OF[s0] <= index < BL_CODES && forall k :: index < k < BL_CODES ==> BL_ORDER[k] < BL_CODES && cl[BL_ORDER[k]] == 0
    {
      OrderInverse(index);
      if cl[BL_ORDER[index]] != 0 { break; }
      index := index - 1;
    }
    blcodes := index + 1;
    forall s | 0 <= s < BL_CODES && ORDER_OF[s] >= blcodes ensures cl[s] == 0 { OrderInverse(s); }
  }

  /** build_bl_tree: at least four codes are sent, and opt_len grows by the size of the whole header. */
  method BuildBlTree(heap: array<nat>, ll: seq<nat>, dl: seq<nat>, blFreq: seq<nat>, blDl: seq<nat>, opt0: int)
    returns (cl: seq<nat>, codes: seq<nat>, blcodes: nat, opt: int, ghost t: Forest, ghost depth: seq<nat>)
    requires TwoTrees(ll, dl) && |blFreq| == |blDl| == 2 * BL_CODES + 1 && heap.Length >= 2 * BL_CODES + 1
    requires forall i :: 0 <= i < BL_CODES ==> blFreq[i] == 0
    modifies heap
    ensures HeaderFit(ll, dl, cl, blcodes) && Sendable(codes, cl, Runs(ll)) && Sendable(codes, cl, Runs(dl))
    ensures opt == opt0 + |Header(ll, dl, cl, blcodes)|
    ensures Whole(t) && Narrow(t, depth, 18)
  {
    hide CompleteCode, ValidDesc, FlatStart, TallyRuns, RunsFrom, BitTotal, EncRuns, EncOrder, CodeLens, RunsCovered, Sendable, Codes, Forced, CodeFor, Optimal, Header, Kraft, Pow2, SoundRuns, SoundRun, StaticTotal;
    Descs();
    var freq := ScanTree(ll, blFreq);
    freq := ScanTree(dl, freq);
    ghost var counted := freq;
    TallyTwice(blFreq, ll, dl);
    var lens, stat, freq1, forced;
    lens, codes, opt, stat, freq1, forced, t, depth := BuildTree(heap, freq, blDl, BL_DESC, opt0, 0);
    TwoScans(blFreq, ll, dl);
    RunsHaveCodes(counted, freq1, forced, lens, codes, Runs(ll));
    RunsHaveCodes(counted, freq1, forced, lens, codes, Runs(dl));
    cl := lens + Times(0, BL_CODES - |lens|);
    UsesLength(ll, cl, codes);
    blcodes := CountBlCodes(cl);
    SendableLens(codes, cl, Runs(ll));
    SendableLens(codes, cl, Runs(dl));
    HeaderSize(ll, dl, cl, blcodes, blFreq);
    PaddedTotal(lens, counted, freq1, forced);
    opt := opt + 3 * blcodes + 5 + 5 + 4;
  }

  lemma {:induction false} BumpFreqTotal(freq: seq<nat>, s: nat, m: nat)
    requires s < |freq| && m <= |freq|
    ensures FreqTotal(Bump(freq, s), m) == FreqTotal(freq, m) + (if s < m then 1 else 0)
    decreases m
  {
    if m > 0 { BumpFreqTotal(freq, s, m - 1); }
  }

  lemma {:induction false} RunsTotal(freq: seq<nat>, runs: seq<Run>)
    requires SoundRuns(runs) && |freq| >= BL_CODES
    ensures FreqTotal(TallyRuns(freq, runs), BL_CODES) == FreqTotal(freq, BL_CODES) + |runs|
    decreases |runs|
  {
    hide FreqTotal;
    if runs != [] {
      RunsTotal(Bump(freq, RunSym(runs[0])), runs[1..]);
      BumpFreqTotal(freq, RunSym(runs[0]), BL_CODES);
    }
  }

  /** Scanning a code counts no more symbols than it has lengths. */
  lemma {:induction false} ScanTotal(freq: seq<nat>, lens: seq<nat>)
    requires (forall i :: 0 <= i < |lens| ==> lens[i] < 16) && SoundRuns(Runs(lens)) && |freq| >= BL_CODES
    ensures FreqTotal(TallyRuns(freq, Runs(lens)), BL_CODES) <= FreqTotal(freq, BL_CODES) + |lens|
  {
    hide FreqTotal, TallyRuns, RunsFrom, Expand, Expandable;
    RunsTotal(freq, Runs(lens));
    assert [] + lens[..0] == [];
    assert [] + lens == lens;
    RunsExpand(lens, 0, -1, 0, []);
    GrowLonger([], Runs(lens));
  }

  lemma {:induction false} TwoScans(freq: seq<nat>, ll: seq<nat>, dl: seq<nat>)
    requires TwoTrees(ll, dl) && |freq| >= BL_CODES && (forall i :: 0 <= i < BL_CODES ==> freq[i] == 0) && SoundRuns(Runs(ll)) && SoundRuns(Runs(dl))
    ensures FreqTotal(TallyRuns(TallyRuns(freq, Runs(ll)), Runs(dl)), BL_CODES) <= 316
  {
    hide TallyRuns, RunsFrom, FreqTotal, SoundRuns;
    NoFreqTotal(freq, BL_CODES);
    ScanTotal(freq, ll);
    ScanTotal(TallyRuns(freq, Runs(ll)), dl);
  }

  lemma {:induction false} NoFreqTotal(freq: seq<nat>, m: nat)
    requires m <= |freq| && forall i :: 0 <= i < m ==> freq[i] == 0
    ensures FreqTotal(freq, m) == 0
    decreases m
  {
    if m > 0 { NoFreqTotal(freq, m - 1); }
  }

  lemma UsesLength(ll: seq<nat>, cl: seq<nat>, codes: seq<nat>)
    requires ll != [] && ll[|ll| - 1] != 0 && (forall k :: 0 <= k < |ll| ==> ll[k] < 16) && Sendable(codes, cl, Runs(ll))
    ensures exists s :: 0 <= s < 16 && s < |cl| && cl[s] != 0
  {
    hide RunsFrom, Codes;
    var i := SomeLength(ll);
    assert RunCovered(cl, Runs(ll)[i]);
    assert cl[Runs(ll)[i].l] != 0;
  }

  lemma SendableLens(codes: seq<nat>, cl: seq<nat>, runs: seq<Run>)
    requires Sendable(codes, cl, runs)
    ensures RunsCovered(cl, runs) && CodeLens(cl)
  {
    hide CodeLens;
  }

  lemma {:induction false} PaddedTotal(lens: seq<nat>, freq: seq<nat>, freq1: seq<nat>, forced: seq<nat>)
    requires ValidDesc(BL_DESC) && |freq| >= BL_CODES && Forced(freq, freq1, forced) && CodeFor(lens, freq1, BL_DESC)
    ensures |lens| <= BL_CODES
    ensures BitTotal(lens, freq, BL_DESC, |lens|) == BitTotal(lens + Times(0, BL_CODES - |lens|), freq, BL_DESC, BL_CODES)
  {
    hide ValidDesc, BitTotal, Kraft, CountsOf;
    var cl := lens + Times(0, BL_CODES - |lens|);
    assert cl[..|lens|] == lens;
    forall n | |lens| <= n < BL_CODES ensures freq[n] == 0 { assert freq1[n] == 0; }
    TotalPrefix(cl, |lens|, freq, BL_DESC, BL_CODES);
  }
}
