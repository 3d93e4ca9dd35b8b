/** LZO1X-999: the token coder, and the compressor with lazy matching on top of the dictionary. */
module LzoCompress999 {
  import opened Bytes
  import opened LzoFormat
  import opened LzoDecode
  import opened LzoWriter
  import opened LzoBounds
  import opened LzoSwd

  /** What can be coded after `lit` literals. */
  predicate Admitted(len: nat, off: nat, lit: nat) {
    if len == 2 then 1 <= off <= M1_MAX_OFFSET && 0 < lit < 4 else len >= 3 && 1 <= off <= M4_MAX_OFFSET
  }

  function FormOf(len: nat, off: nat, lit: nat): Form {
    if len == 2 then M1
    else if len <= M2_MAX_LEN && off <= M2_MAX_OFFSET then M2
    else if len == 3 && off <= MX_MAX_OFFSET && lit >= 4 then M1Far
    else if off <= M3_MAX_OFFSET then M3 else M4
  }

  /** The decoder's context after a run of `lit` literals. */
  function ContextOf(lit: nat): Context {
    if lit == 0 then AfterMatch else if lit < 4 then AfterShort else AfterRun
  }

  lemma FormFits(len: nat, off: nat, lit: nat)
    requires Admitted(len, off, lit)
    ensures InRange(FormOf(len, off, lit), len, off) && Allowed(ContextOf(lit), FormOf(len, off, lit))
  {
  }

  method CodeMatch(op: seq<Byte>, len: nat, off: nat, r1Lit: nat) returns (op': seq<Byte>)
    requires Admitted(len, off, r1Lit)
    ensures InRange(FormOf(len, off, r1Lit), len, off)
    ensures op' == op + MatchHead(FormOf(len, off, r1Lit), len, off, 0)
  {
    hide LenHead;
    if len == 2 {
      var d := off - 1;
      op' := op + [d % 4 * 4] + [d / 4];
    } else if len <= M2_MAX_LEN && off <= M2_MAX_OFFSET {
      var d := off - 1;
      op' := op + [(len - 1) * 32 + d % 8 * 4] + [d / 8];
    } else if len == 3 && off <= MX_MAX_OFFSET && r1Lit >= 4 {
      var d := off - (1 + M2_MAX_OFFSET);
      op' := op + [d % 4 * 4] + [d / 4];
    } else {
      op' := PutFar(op, len, off);
    }
  }

  /** The number of bytes that a match takes after `lit` literals, and -1 if it cannot be coded. */
  function CodedSize(len: nat, off: nat, lit: nat): int {
    if len < 2 then -1
    else if len == 2 then (if off <= M1_MAX_OFFSET && 0 < lit < 4 then 2 else -1)
    else if (len <= M2_MAX_LEN && off <= M2_MAX_OFFSET) || (len == 3 && off <= MX_MAX_OFFSET && lit >= 4) then 2
    else if off <= M3_MAX_OFFSET then (if len <= M3_MAX_LEN then 3 else 4 + (len - M3_MAX_LEN - 1) / 255)
    else if off <= M4_MAX_OFFSET then (if len <= M4_MAX_LEN then 3 else 4 + (len - M4_MAX_LEN - 1) / 255)
    else -1
  }

  /** len_of_coded_match: -1 for what cannot be coded, and otherwise exactly the number of bytes that
      code_match writes. */
  method LenOfCodedMatch(mLen: nat, mOff: nat, lit: nat) returns (n: int)
    requires mOff >= 1
    ensures Admitted(mLen, mOff, lit) ==>
              InRange(FormOf(mLen, mOff, lit), mLen, mOff) && n == |MatchHead(FormOf(mLen, mOff, lit), mLen, mOff, 0)|
    ensures !Admitted(mLen, mOff, lit) ==> n == -1
    ensures n <= 3 || mLen > M4_MAX_LEN
    ensures n == CodedSize(mLen, mOff, lit)
    ensures n == -1 <==> mLen < 2 || mOff > 49151 || (mLen == 2 && (mOff > 1024 || lit == 0 || lit > 3))
    ensures n == 2 <==> (mLen == 2 && mOff <= 1024 && 1 <= lit <= 3) || (3 <= mLen <= 8 && mOff <= 2048)
                        || (mLen == 3 && mOff <= 3072 && lit >= 4)
    ensures n >= 3 ==> n == (if mLen <= (if mOff <= 16384 then 33 else 9) then 3 else
                             4 + (mLen - (if mOff <= 16384 then 33 else 9) - 1) / 255)
  {
    hide Low, High;
    if mLen < 2 { return -1; }
    if mLen == 2 { return if mOff <= M1_MAX_OFFSET && lit > 0 && lit < 4 then 2 else -1; }
    if mLen <= M2_MAX_LEN && mOff <= M2_MAX_OFFSET { return 2; }
    if mLen == 3 && mOff <= MX_MAX_OFFSET && lit >= 4 { return 2; }
    var len := mLen;
    if mOff <= M3_MAX_OFFSET {
      if len <= M3_MAX_LEN { return 3; }
      len := len - M3_MAX_LEN;
    } else if mOff <= M4_MAX_OFFSET {
      if len <= M4_MAX_LEN { return 3; }
      len := len - M4_MAX_LEN;
    } else {
      return -1;
    }
    n := CountExtension(len);
  }

  method CountExtension(mLen: nat) returns (n: int)
    requires mLen >= 1
    ensures n == 3 + |Ext(mLen)|
  {
    n := 4;
    var len := mLen;
    while len > 255
      invariant 1 <= len
      invariant n + |Ext(len)| == 4 + |Ext(mLen)|
    {
      len := len - 255;
      n := n + 1;
    }
  }

  function MinGain(ahead: nat, lit1: nat, lit2: nat, l1: int, l2: int, l3: int): int {
    var g := ahead
             + (if lit1 <= 3 then (if lit2 <= 3 then 0 else 2) else if lit1 <= 18 then (if lit2 <= 18 then 0 else 1) else 0)
             + (l2 - l1) * 2
             - (if l3 > 0 then (ahead - l3) * 2 else 0);
    if g < 0 then 0 else g
  }

  /** What a later match must gain: its distance from the first one, more if the literals before it will need a longer
      announcement, and twice what it costs more; less twice what coding the bytes before it as a match saves. */
  lemma MinGainMeans(ahead: nat, lit: nat, l1: int, l2: int, l3: int)
    requires 1 <= ahead <= 2
    ensures var longer := if lit <= 3 < lit + ahead then 2 else if 3 < lit <= 18 < lit + ahead then 1 else 0;
            var saved := if l3 > 0 then 2 * (ahead - l3) else 0;
            var gain := ahead + longer + 2 * (l2 - l1) - saved;
            MinGain(ahead, lit, lit + ahead, l1, l2, l3) == (if gain < 0 then 0 else gain)
  {
  }

  /** The bytes that announce `lit` literals. */
  function LitHead(lit: nat, atStart: bool): nat {
    if lit == 0 then 0 else if atStart && lit <= 238 then 1 else if lit <= 3 then 0 else |RunHead(lit)|
  }

  lemma LitHeadMeans(lit: nat, atStart: bool)
    ensures LitHead(lit, atStart) ==
      if lit == 0 then 0 else if atStart && lit <= 238 then 1 else if lit <= 3 then 0 else if lit <= 18 then 1 else 2 + (lit - 19) / 255
  {
  }

  /** Write the pending literals and the match after them. */
  method CodePair(inp: seq<Byte>, q: nat, lit: nat, len: nat, off: nat, op: seq<Byte>, ghost toks: seq<Token>)
    returns (op': seq<Byte>, ghost toks': seq<Token>)
    requires lit <= q && Wrote(inp, q - lit, op, toks) && RunMayFollow(toks)
    requires (op == [] <==> toks == []) && (op == [] ==> lit > 0) && Frugal(Start, toks)
    requires Occurs(inp, q, off, len) && Admitted(len, off, lit) && !(len == 3 && off > MX_MAX_OFFSET && lit >= 4)
    ensures Wrote(inp, q + len, op', toks') && RunMayFollow(toks') && op' != [] && toks' != [] && Frugal(Start, toks')
    ensures InRange(FormOf(len, off, lit), len, off)
    ensures |op'| == |op| + lit + LitHead(lit, op == []) + |MatchHead(FormOf(len, off, lit), len, off, 0)|
  {
    hide Wrote, MatchHead, Enc, Admitted, Frugal, Saves, RunHead;
    ghost var mid := toks;
    op' := op;
    if lit > 0 {
      op', mid := StoreRun(op, inp, q - lit, lit, op == [] && lit <= 238, toks);
      RunKeepsFrugal(toks, inp[q - lit..q], op == [] && lit <= 238);
    }
    assert End(Start, mid) == ContextOf(lit);
    MatchSaves(len, off, lit);
    FrugalSnoc(mid, Match(FormOf(len, off, lit), len, off, []));
    MatchWritten(inp, q, op', mid, len, off, lit);
    op' := CodeMatch(op', len, off, lit);
    toks' := mid + [Match(FormOf(len, off, lit), len, off, [])];
  }

  /** After four literals or more a match that is coded saves a byte. */
  lemma MatchSaves(len: nat, off: nat, lit: nat)
    requires Admitted(len, off, lit) && !(len == 3 && off > MX_MAX_OFFSET && lit >= 4)
    ensures lit >= 4 ==> Saves(Match(FormOf(len, off, lit), len, off, []))
  {
  }

  lemma {:induction false} RunKeepsFrugal(toks: seq<Token>, lits: seq<Byte>, opening: bool)
    requires lits != [] && RunMayFollow(toks) && (opening || |lits| > 3 || toks != []) && (opening ==> toks == []) && Frugal(Start, toks)
    ensures Frugal(Start, RunTokens(toks, lits, opening))
  {
    hide Frugal, Head;
    if opening {
      FrugalSnoc(toks, First(lits));
    } else if |lits| <= 3 {
      var n := |toks| - 1;
      var last := toks[n];
      assert toks == toks[..n] + [last];
      FrugalSnoc(toks[..n], last);
      FrugalSnoc(toks[..n], last.(lits := lits));
      SameSaves(last, lits);
    } else {
      FrugalSnoc(toks, Run(lits));
    }
  }

  lemma SameSaves(tok: Token, lits: seq<Byte>)
    requires tok.Match? && |lits| <= 3 && tok.lits == []
    ensures Saves(tok) <==> Saves(tok.(lits := lits))
  {
    hide Prefix, InRange, Low, High;
  }

  lemma {:induction false} MatchWritten(inp: seq<Byte>, q: nat, op: seq<Byte>, toks: seq<Token>, len: nat, off: nat, lit: nat)
    requires Wrote(inp, q, op, toks) && Occurs(inp, q, off, len) && Admitted(len, off, lit)
    requires End(Start, toks) == ContextOf(lit)
    ensures InRange(FormOf(len, off, lit), len, off)
    ensures Wrote(inp, q + len, op + MatchHead(FormOf(len, off, lit), len, off, 0),
                  toks + [Match(FormOf(len, off, lit), len, off, [])])
  {
    hide MatchHead, Wrote, Copy, FormOf;
    var tok := Match(FormOf(len, off, lit), len, off, []);
    FormFits(len, off, lit);
    CopyUnique(inp, q, off, len);
    assert Apply(inp[..q], tok) == inp[..q + len];
    assert Enc(tok) == MatchHead(FormOf(len, off, lit), len, off, 0);
    WroteToken(inp, q, op, toks, tok, q + len);
  }

  lemma ShorterOccurs(inp: seq<Byte>, q: nat, off: nat, len: nat, shorter: nat)
    requires Occurs(inp, q, off, len) && shorter <= len
    ensures Occurs(inp, q, off, shorter)
  {
  }

  /** A match of one byte less at most 2048 back if that makes it an M2 match, or of two bytes less; or a match of one byte
      less at most 16384 back, if that makes an M4 match with an extension an M3 match without. */
  function Better(bestOff: seq<nat>, len: nat, off: nat): (nat, nat)
    requires |bestOff| == 34
  {
    if off > M2_MAX_OFFSET && 4 <= len <= 9 && 1 <= bestOff[len - 1] <= M2_MAX_OFFSET then (len - 1, bestOff[len - 1])
    else if off > M3_MAX_OFFSET && len == 10 && 1 <= bestOff[8] <= M2_MAX_OFFSET then (8, bestOff[8])
    else if off > M3_MAX_OFFSET && 10 <= len <= 34 && 1 <= bestOff[len - 1] <= M3_MAX_OFFSET then (len - 1, bestOff[len - 1])
    else (len, off)
  }

  /** A match that is replaced loses one or two bytes and is at least one byte cheaper to code; and it is replaced
      whenever there is a cheaper match of one byte less, but for four kinds of match that are not looked for. */
  lemma BetterIsCheaper(bestOff: seq<nat>, len: nat, off: nat, lit: nat)
    requires |bestOff| == 34 && 1 <= off <= 49151 && len >= 4
    ensures var (len', off') := Better(bestOff, len, off);
            (len', off') != (len, off) ==> len - 2 <= len' < len && 2 <= CodedSize(len', off', lit) < CodedSize(len, off, lit)
    ensures Better(bestOff, len, off) == (len, off) && len <= 34 && 1 <= bestOff[len - 1] <= 49151 ==>
            || CodedSize(len - 1, bestOff[len - 1], lit) >= CodedSize(len, off, lit)
            || (len == 4 && bestOff[3] > 2048) || (len == 9 && off <= 2048) || (len == 10 && bestOff[9] > 16384)
            || (len == 34 && off <= 16384)
  {
  }

  /** better_match: a slightly shorter match at the same place that is cheaper to code. */
  method BetterMatch(bestOff: seq<nat>, len: nat, off: nat, ghost inp: seq<Byte>, ghost q: nat) returns (len': nat, off': nat)
    requires Occurs(inp, q, off, len) && BestAt(inp, q, bestOff)
    ensures Occurs(inp, q, off', len')
    ensures if len <= 3 then len' == len && off' == off else 3 <= len' <= len && (len' == 3 ==> off' <= M2_MAX_OFFSET)
    ensures off <= M2_MAX_OFFSET ==> len' == len && off' == off
    ensures |bestOff| == 34 && (len', off') == Better(bestOff, len, off)
  {
    hide Occurs;
    len', off' := len, off;
    if len <= 3 || off <= M2_MAX_OFFSET { return; }
    if 4 <= len <= M2_MAX_LEN + 1 && bestOff[len - 1] != 0 && bestOff[len - 1] <= M2_MAX_OFFSET {
      len' := len - 1;
      off' := bestOff[len'];
      return;
    }
    if off > M3_MAX_OFFSET && M4_MAX_LEN + 1 <= len <= M2_MAX_LEN + 2 && bestOff[len - 2] != 0 && bestOff[len - 2] <= M2_MAX_OFFSET {
      len' := len - 2;
      off' := bestOff[len'];
      return;
    }
    if off > M3_MAX_OFFSET && M4_MAX_LEN + 1 <= len <= M3_MAX_LEN + 1 && bestOff[len - 1] != 0 && bestOff[len - 1] <= M3_MAX_OFFSET {
      len' := len - 1;
      off' := bestOff[len'];
    }
  }

  /** How many bytes the dictionary can see from position q of n. */
  function Ahead(n: nat, q: nat): nat {
    if q >= n then 0 else if n - q <= 2048 then n - q else 2049
  }

  /** The dictionary has just searched position q and reported this. */
  ghost predicate Searched(swd: Swd, q: nat, len: nat, off: nat, avail: nat)
    reads swd
  {
    && swd.Valid() && swd.p == q + 1 && q <= |swd.inp|
    && avail == Ahead(|swd.inp|, q)
    && (len >= 2 ==> Occurs(swd.inp, q, off, len))
    && (swd.useBestOff && len >= 2 ==> BestAt(swd.inp, q, swd.bestOff))
  }

  /** Search the position after the one searched last, or after a match of thisLen bytes. */
  method NextSearch(swd: Swd, chain: nat, thisLen: nat, skip: nat, ghost q: nat) returns (len: nat, off: nat, avail: nat)
    requires swd.Valid() && swd.p == q + (if skip > 0 then skip else 1) && q + thisLen <= |swd.inp|
    requires skip <= thisLen && (skip == 0 ==> thisLen == 1)
    modifies swd
    ensures Searched(swd, q + thisLen, len, off, avail)
    ensures chain > 0 && avail > 0 ==> Deep(swd.inp, q + thisLen, len, off)
    ensures swd.maxChain == chain
  {
    hide Swd.Valid, Occurs, Deep;
    swd.maxChain := chain;
    len, off, avail := swd.FindMatch(thisLen, skip);
  }

  /** A later match: as it was found, as better_match left it, and how many positions the search might try. */
  datatype Offer = Offer(len: nat, off: nat, len2: nat, off2: nat, chain: nat)

  /** The settings of a level. */
  datatype Setting = Setting(goodLength: nat, maxLazy: nat, chain: nat, useBestOff: bool)

  /** The offer, `ahead` positions after a match of `len` bytes that follows `lit` literals, is taken instead of that match:
      it is longer, or as long and nearer; it can be coded; and it gains what it must. */
  predicate Wins(o: Offer, len: nat, off: nat, lit: nat, ahead: nat, l1: int, atStart: bool) {
    var l2 := CodedSize(o.len2, o.off2, lit + ahead);
    && (o.len > len || (o.len == len && o.off < off)) && l2 >= 0
    && o.len2 >= len + MinGain(ahead, lit, lit + ahead, l1, l2, if atStart then -1 else CodedSize(ahead, off, lit))
  }

  /** The lazy search at the one or two positions after a match.  If a better match turns up, the bytes
      before it become literals, or (`short`) a two-byte match with the distance of the first.  The first offer that wins
      is taken; without one, the search goes on until `maxAhead` or until no longer match is possible. */
  method TryLazy(swd: Swd, chain: nat, goodLength: nat, ghost maxLazy: nat, mq: nat, lit: nat, len: nat, off: nat, l1: int,
                 maxAhead: nat, avail0: nat, atStart: bool)
    returns (taken: bool, short: bool, ahead: nat, cLen: nat, cOff: nat, avail: nat, ghost offers: seq<Offer>)
    requires Searched(swd, mq, len, off, avail0) && len >= 2 && maxAhead <= 2 && maxAhead < len
    modifies swd
    ensures swd.Valid() && ahead <= maxAhead && swd.p == mq + ahead + 1
    ensures taken ==> ahead >= 1 && Searched(swd, mq + ahead, cLen, cOff, avail)
    ensures taken && short ==> ahead == 2 && Admitted(2, off, lit) && !atStart
    ensures maxAhead == 0 || avail0 <= len ==> !taken && ahead == 0
    ensures |offers| == ahead && forall k :: 0 <= k < ahead ==> (Wins(offers[k], len, off, lit, k + 1, l1, atStart) <==> taken && k == ahead - 1)
    ensures taken ==> cLen == offers[ahead - 1].len2 && cOff == offers[ahead - 1].off2
    ensures taken ==> (short <==> !atStart && CodedSize(ahead, off, lit) > 0)
    ensures !taken ==> ahead == maxAhead || Ahead(|swd.inp|, mq + ahead) <= len
    ensures forall k :: 0 <= k < ahead ==> Found(swd.inp, mq + k + 1, offers[k], len, Setting(goodLength, maxLazy, chain, swd.useBestOff))
    ensures ahead > 0 ==> swd.maxChain == (if len >= goodLength then chain / 4 else chain)
  {
    hide Occurs, Admitted, Wins, Found, Searched, CodedSize;
    taken, short, ahead, cLen, cOff, avail, offers := false, false, 0, len, off, avail0, [];
    SearchedAhead(swd, mq, len, off, avail);
    while ahead < maxAhead && avail > len
      invariant ahead <= maxAhead && Searched(swd, mq + ahead, cLen, cOff, avail) && (avail0 <= len ==> ahead == 0 && avail == avail0)
      invariant |offers| == ahead && !taken && forall k :: 0 <= k < ahead ==> !Wins(offers[k], len, off, lit, k + 1, l1, atStart)
      invariant forall k :: 0 <= k < ahead ==> Found(swd.inp, mq + k + 1, offers[k], len, Setting(goodLength, maxLazy, chain, swd.useBestOff))
      invariant ahead > 0 ==> swd.maxChain == (if len >= goodLength then chain / 4 else chain)
      invariant avail == Ahead(|swd.inp|, mq + ahead)
    {
      ghost var offer;
      ahead := ahead + 1;
      taken, short, cLen, cOff, avail, offer := TryOne(swd, chain, goodLength, maxLazy, mq + ahead, lit, len, off, l1, ahead, avail, cLen, cOff, atStart);
      SearchedAhead(swd, mq + ahead, cLen, cOff, avail);
      offers := offers + [offer];
      if taken { return; }
    }
    SearchedAhead(swd, mq + ahead, cLen, cOff, avail);
  }

  lemma SearchedAhead(swd: Swd, q: nat, len: nat, off: nat, avail: nat)
    requires Searched(swd, q, len, off, avail)
    ensures avail == Ahead(|swd.inp|, q) && q <= |swd.inp| && (len >= 2 ==> 1 <= off <= q) && swd.Valid() && swd.p == q + 1
    ensures len >= 2 ==> Occurs(swd.inp, q, off, len) && (swd.useBestOff ==> BestAt(swd.inp, q, swd.bestOff) && |swd.bestOff| == 34)
  {
    hide Swd.Valid;
    if len >= 2 { OccursIn(swd.inp, q, off, len); }
  }

  /** Search one position further, and compare. */
  method TryOne(swd: Swd, chain: nat, goodLength: nat, ghost maxLazy: nat, q: nat, lit: nat, len: nat, off: nat, l1: int, ahead: nat,
                avail0: nat, cLen0: nat, cOff0: nat, atStart: bool)
    returns (taken: bool, short: bool, cLen: nat, cOff: nat, avail: nat, ghost offer: Offer)
    requires 1 <= ahead <= 2 && q >= 1 && Searched(swd, q - 1, cLen0, cOff0, avail0) && avail0 > len >= 2 && off >= 1
    modifies swd
    ensures Searched(swd, q, cLen, cOff, avail)
    ensures taken && short ==> ahead == 2 && Admitted(2, off, lit) && !atStart
    ensures (taken <==> Wins(offer, len, off, lit, ahead, l1, atStart)) && cLen == offer.len2 && cOff == offer.off2
    ensures taken ==> (short <==> !atStart && CodedSize(ahead, off, lit) > 0)
    ensures Found(swd.inp, q, offer, len, Setting(goodLength, maxLazy, chain, swd.useBestOff))
    ensures swd.maxChain == (if len >= goodLength then chain / 4 else chain)
  {
    hide Occurs, Admitted, Wins, CodedSize, Better, Deep;
    var cLen', cOff';
    cLen', cOff', avail := NextSearch(swd, if len >= goodLength then chain / 4 else chain, 1, 0, q - 1);
    taken, short, cLen, cOff, offer := Compared(swd, q, lit, len, off, l1, cLen', cOff', avail, ahead, atStart);
  }

  /** The offer is what the search at q found, with a quarter of the positions if the first match is a good one, and it
      has only been changed if that is asked for. */
  ghost predicate Found(inp: seq<Byte>, q: nat, o: Offer, len: nat, how: Setting) {
    && o.chain == (if len >= how.goodLength then how.chain / 4 else how.chain)
    && (o.chain > 0 && q < |inp| ==> Deep(inp, q, o.len, o.off))
    && (!how.useBestOff ==> o.len2 == o.len && o.off2 == o.off)
  }

  method Compared(swd: Swd, q: nat, lit: nat, len: nat, off: nat, l1: int, cLen: nat, cOff: nat, avail: nat, ahead: nat, atStart: bool)
    returns (taken: bool, short: bool, cLen': nat, cOff': nat, ghost offer: Offer)
    requires Searched(swd, q, cLen, cOff, avail) && off >= 1 && len >= 2 && 1 <= ahead <= 2
    ensures Searched(swd, q, cLen', cOff', avail)
    ensures short ==> ahead == 2 && Admitted(2, off, lit) && !atStart
    ensures offer == Offer(cLen, cOff, cLen', cOff', swd.maxChain) && (taken <==> Wins(offer, len, off, lit, ahead, l1, atStart))
    ensures taken ==> (short <==> !atStart && CodedSize(ahead, off, lit) > 0)
    ensures if swd.useBestOff && (cLen > len || (cLen == len && cOff < off)) then
              |swd.bestOff| == 34 && (cLen', cOff') == Better(swd.bestOff, cLen, cOff)
            else (cLen', cOff') == (cLen, cOff)
  {
    hide Occurs, Admitted, Better, CodedSize;
    taken, short, cLen', cOff' := false, false, cLen, cOff;
    if cLen > len || (cLen == len && cOff < off) {
      if swd.useBestOff { cLen', cOff' := BetterMatch(swd.bestOff, cLen, cOff, swd.inp, q); }
      OccursIn(swd.inp, q, cOff', cLen');
      taken, short := Worth(len, off, lit, l1, cLen', cOff', ahead, atStart);
    }
    offer := Offer(cLen, cOff, cLen', cOff', swd.maxChain);
  }

  /** Is the later match worth it?  And can the bytes before it be coded as a shortened match? */
  method Worth(len: nat, off: nat, lit: nat, l1: int, cLen: nat, cOff: nat, ahead: nat, atStart: bool)
    returns (worth: bool, short: bool)
    requires off >= 1 && cOff >= 1 && 1 <= ahead <= 2
    ensures short ==> ahead == 2 && Admitted(2, off, lit) && !atStart
    ensures var l2 := CodedSize(cLen, cOff, lit + ahead);
            worth <==> l2 >= 0 && cLen >= len + MinGain(ahead, lit, lit + ahead, l1, l2, if atStart then -1 else CodedSize(ahead, off, lit))
    ensures worth ==> (short <==> !atStart && CodedSize(ahead, off, lit) > 0)
  {
    hide MatchHead, FormOf, InRange, CodedSize;
    var l2 := LenOfCodedMatch(cLen, cOff, lit + ahead);
    if l2 < 0 { return false, false; }
    var l3 := -1;
    if !atStart { l3 := LenOfCodedMatch(ahead, off, lit); }
    worth, short := cLen >= len + MinGain(ahead, lit, lit + ahead, l1, l2, l3), l3 > 0;
  }

  /** Is the match reported at q not worth coding, or not codable, so that its first byte is a literal? */
  predicate TakeLiteral(len: nat, off: nat, lit: nat, atStart: bool) {
    || len < 2
    || (len == 2 && (off > M1_MAX_OFFSET || lit == 0 || lit >= 4))
    || (len == 2 && atStart)
    || (atStart && lit == 0)
    || (len == 3 && off > MX_MAX_OFFSET && lit >= 4)
  }

  /** Everything before position q, except the last `lit` bytes, is written. */
  ghost predicate Pending(inp: seq<Byte>, q: nat, lit: nat, op: seq<Byte>, toks: seq<Token>) {
    lit <= q && Wrote(inp, q - lit, op, toks) && RunMayFollow(toks) && (op == [] <==> toks == []) && Frugal(Start, toks)
  }

  /** A match that is taken as it is: near, and too long for a lazy search or as long as the input. */
  predicate Straight(len: nat, off: nat, avail: nat, maxLazy: nat) {
    off <= M2_MAX_OFFSET && (len >= maxLazy || len >= avail)
  }

  lemma HeadSize(len: nat, off: nat, lit: nat)
    requires Admitted(len, off, lit)
    ensures InRange(FormOf(len, off, lit), len, off) && |MatchHead(FormOf(len, off, lit), len, off, 0)| == CodedSize(len, off, lit) >= 2
  {
    hide Low, High;
  }

  /** How many later positions are searched after a match of `len` bytes that takes `size` bytes. */
  function LazyMost(len: nat, size: int, maxLazy: nat): (n: nat)
    requires size >= 2
    ensures n == if len >= maxLazy then 0 else if size == 2 then 1 else 2
  {
    if len >= maxLazy then 0 else if size - 1 < 2 then size - 1 else 2
  }

  /** What CodeBest decided: the match it started from, after better_match, what it was offered instead, and whether the
      last offer won. */
  datatype Choice = Choice(len: nat, off: nat, offers: seq<Offer>, taken: bool)

  /** The choice by the rules: offers as far as they are asked for, up to the first that wins. */
  ghost predicate Lawful(c: Choice, inp: seq<Byte>, q: nat, lit: nat, atStart: bool, how: Setting) {
    var size, n := CodedSize(c.len, c.off, lit), |c.offers|;
    && size >= 2 && n <= LazyMost(c.len, size, how.maxLazy)
    && (forall k :: 0 <= k < n ==> (Wins(c.offers[k], c.len, c.off, lit, k + 1, size, atStart) <==> c.taken && k == n - 1))
    && (c.taken ==> n >= 1) && (!c.taken ==> n == LazyMost(c.len, size, how.maxLazy) || Ahead(|inp|, q + n) <= c.len)
    && (forall k :: 0 <= k < n ==> Found(inp, q + k + 1, c.offers[k], c.len, how))
  }

  /** In numbers: at most one later position is looked at after a match of two bytes, two after a longer one and none after
      a long match; and an offer is taken if and only if it is longer or nearer, can be coded, and is longer by its
      distance, by one or two bytes if it needs a longer announcement of the literals, and by twice what it costs more,
      less twice what a two-byte match before it saves. */
  lemma LawfulMeans(c: Choice, inp: seq<Byte>, q: nat, lit: nat, atStart: bool, how: Setting, k: nat)
    requires Lawful(c, inp, q, lit, atStart, how) && k < |c.offers|
    ensures c.len < how.maxLazy && |c.offers| <= (if CodedSize(c.len, c.off, lit) == 2 then 1 else 2)
    ensures var o, l1, l2, l3 := c.offers[k], CodedSize(c.len, c.off, lit), CodedSize(c.offers[k].len2, c.offers[k].off2, lit + k + 1), CodedSize(k + 1, c.off, lit);
            var longer := if lit <= 3 < lit + k + 1 then 2 else if 3 < lit <= 18 < lit + k + 1 then 1 else 0;
            var saved := if !atStart && l3 > 0 then 2 * (k + 1 - l3) else 0;
            var gain := k + 1 + longer + 2 * (l2 - l1) - saved;
            c.taken && k == |c.offers| - 1 <==>
              (o.len > c.len || (o.len == c.len && o.off < c.off)) && l2 >= 0 && o.len2 >= c.len && o.len2 - c.len >= gain
  {
    hide CodedSize, Found, MinGain;
    var o, l1, l2, l3 := c.offers[k], CodedSize(c.len, c.off, lit), CodedSize(c.offers[k].len2, c.offers[k].off2, lit + k + 1), CodedSize(k + 1, c.off, lit);
    assert Wins(o, c.len, c.off, lit, k + 1, l1, atStart) <==> c.taken && k == |c.offers| - 1;
    MinGainMeans(k + 1, lit, l1, l2, if atStart then -1 else l3);
  }

  lemma IsLawful(c: Choice, inp: seq<Byte>, q: nat, lit: nat, atStart: bool, most: nat, how: Setting)
    requires var size, n := CodedSize(c.len, c.off, lit), |c.offers|;
      && size >= 2 && most == LazyMost(c.len, size, how.maxLazy) && n <= most && (c.taken ==> n >= 1)
      && (forall k :: 0 <= k < n ==>
            (Wins(c.offers[k], c.len, c.off, lit, k + 1, if c.len < how.maxLazy then size else 0, atStart) <==> c.taken && k == n - 1))
      && (!c.taken ==> n == most || Ahead(|inp|, q + n) <= c.len)
      && (forall k :: 0 <= k < n ==> Found(inp, q + k + 1, c.offers[k], c.len, how))
    ensures Lawful(c, inp, q, lit, atStart, how)
  {
    hide Wins, Found, CodedSize;
  }

  /** The match to start from, what it costs, and how far to search for another. */
  method StartFrom(swd: Swd, q: nat, lit: nat, len0: nat, off0: nat, avail0: nat, maxLazy: nat, atStart: bool)
    returns (len: nat, off: nat, l1: int, maxAhead: nat)
    requires Searched(swd, q, len0, off0, avail0) && !TakeLiteral(len0, off0, lit, atStart)
    ensures Searched(swd, q, len, off, avail0) && len >= 2 && 1 <= off <= q && q + len <= |swd.inp| && Occurs(swd.inp, q, off, len)
    ensures swd.useBestOff ==> |swd.bestOff| == 34
    ensures (len, off) == if swd.useBestOff then Better(swd.bestOff, len0, off0) else (len0, off0)
    ensures off0 <= M2_MAX_OFFSET ==> len == len0 && off == off0
    ensures Admitted(len, off, lit) && !(len == 3 && off > MX_MAX_OFFSET && lit >= 4) && CodedSize(len, off, lit) >= 2
    ensures l1 == (if len < maxLazy then CodedSize(len, off, lit) else 0)
    ensures maxAhead == LazyMost(len, CodedSize(len, off, lit), maxLazy) && maxAhead < len
  {
    hide Occurs, Swd.Valid, Better, MatchHead, FormOf, CodedSize, BestAt;
    len, off := len0, off0;
    if swd.useBestOff { len, off := BetterMatch(swd.bestOff, len, off, swd.inp, q); }
    OccursIn(swd.inp, q, off, len);
    HeadSize(len, off, lit);
    l1, maxAhead := 0, 0;
    if len < maxLazy {
      l1 := LenOfCodedMatch(len, off, lit);
      maxAhead := if l1 - 1 < 2 then l1 - 1 else 2;
    }
  }

  /** One match of the main loop, with its lazy search. */
  method CodeBest(swd: Swd, chain: nat, goodLength: nat, maxLazy: nat, q: nat, lit: nat, len0: nat, off0: nat,
                  avail0: nat, op: seq<Byte>, ghost toks: seq<Token>)
    returns (op': seq<Byte>, ghost toks': seq<Token>, q': nat, lit': nat, cLen: nat, cOff: nat, avail: nat, ghost choice: Choice)
    requires Searched(swd, q, len0, off0, avail0) && Pending(swd.inp, q, lit, op, toks)
    requires !TakeLiteral(len0, off0, lit, op == [])
    modifies swd
    ensures q < q' && Searched(swd, q', cLen, cOff, avail) && Pending(swd.inp, q', lit', op', toks')
    ensures Straight(len0, off0, avail0, maxLazy) ==> choice == Choice(len0, off0, [], false)
    ensures chain > 0 && avail > 0 && !choice.taken ==> Deep(swd.inp, q', cLen, cOff)
    ensures swd.useBestOff ==> |old(swd.bestOff)| == 34
    ensures (choice.len, choice.off) == if swd.useBestOff then Better(old(swd.bestOff), len0, off0) else (len0, off0)
    ensures Lawful(choice, swd.inp, q, lit, op == [], Setting(goodLength, maxLazy, chain, swd.useBestOff))
    ensures !choice.taken ==>
              && q' == q + choice.len && lit' == 0 && op' != []
              && |op'| == |op| + lit + LitHead(lit, op == []) + CodedSize(choice.len, choice.off, lit)
    ensures choice.taken && op != [] && CodedSize(|choice.offers|, choice.off, lit) > 0 ==>
              q' == q + 2 && lit' == 0 && |op'| == |op| + lit + LitHead(lit, false) + 2
    ensures choice.taken && (op == [] || CodedSize(|choice.offers|, choice.off, lit) <= 0) ==>
              op' == op && lit' == lit + |choice.offers| && q' == q + |choice.offers|
  {
    hide Wrote, RunMayFollow, Occurs, Swd.Valid, Frugal, Deep, MatchHead, LitHead, Wins, Found, Better, FormOf, CodedSize, BestAt, Lawful, Searched, LazyMost, Admitted;
    var len, off, l1, maxAhead := StartFrom(swd, q, lit, len0, off0, avail0, maxLazy, op == []);
    var taken, short, ahead;
    ghost var offers;
    taken, short, ahead, cLen, cOff, avail, offers := TryLazy(swd, chain, goodLength, maxLazy, q, lit, len, off, l1, maxAhead, avail0, op == []);
    choice := Choice(len, off, offers, taken);
    IsLawful(choice, swd.inp, q, lit, op == [], maxAhead, Setting(goodLength, maxLazy, chain, swd.useBestOff));
    if taken && short {
      ShorterOccurs(swd.inp, q, off, len, 2);
      HeadSize(2, off, lit);
      op', toks' := CodePair(swd.inp, q, lit, 2, off, op, toks);
      q', lit' := q + ahead, 0;
    } else if taken {
      op', toks', q', lit' := op, toks, q + ahead, lit + ahead;
    } else {
      HeadSize(len, off, lit);
      op', toks' := CodePair(swd.inp, q, lit, len, off, op, toks);
      cLen, cOff, avail := NextSearch(swd, chain, len, 1 + ahead, q);
      q', lit' := q + len, 0;
    }
  }

  /** The work memory as it comes: nothing is assumed about its contents. */
  datatype Memory = Memory(b: seq<Byte>, head3: seq<nat>, succ3: seq<nat>, best3: seq<nat>, bestOff: seq<nat>, bestPos: seq<nat>)

  predicate Sized(m: Memory) {
    |m.b| == B + F && |m.head3| == HSIZE && |m.succ3| == |m.best3| == B && |m.bestOff| == |m.bestPos| == BEST
  }

  // ---------- a law of the whole: rows of equal bytes ----------

  /** In a row of equal bytes, the search reports all that is left, or the longest match there can be, at distance one. */
  lemma {:induction false} UniformDeep(inp: seq<Byte>, q: nat, len: nat, off: nat)
    requires Uniform(inp) && 1 <= q && q + 3 <= |inp| && Deep(inp, q, len, off)
    ensures off == 1 && len == if |inp| - q < F then |inp| - q else F
  {
    hide Key3, Common;
    var n := if |inp| - q < F then |inp| - q else F;
    CommonIs(inp, q, 1, 0, n);
    assert KeyOf(inp, q - 1) == KeyOf(inp, q);
    assert FirstTried(inp, q, 1);
  }

  /** The number of bytes written up to position q of n equal ones: eleven at most for every 2048 bytes. */
  predicate Row(n: nat, q: nat, lit: nat, size: nat) {
    || (size == 0 && lit == q && (q <= 1 || n <= 3))
    || (size > 0 && lit == 0 && q >= 1 && 2048 * (size - 2) <= 11 * (q - 1))
    || (size > 0 && 1 <= lit <= 2 && lit < q && n - q + lit <= 2 && 2048 * (size - 2) <= 11 * (q - lit - 1))
    || (size > 0 && q == n && lit == 0 && 2048 * (size - 13) <= 11 * n)
  }

  lemma {:induction false} RowLiteral(inp: seq<Byte>, q: nat, lit: nat, size: nat, len: nat, off: nat)
    requires Uniform(inp) && q < |inp| && Row(|inp|, q, lit, size) && Deep(inp, q, len, off) && TakeLiteral(len, off, lit, size == 0)
    ensures Row(|inp|, q + 1, lit + 1, size)
  {
    hide Deep, Uniform;
    if 1 <= q && q + 3 <= |inp| && !(size > 0 && lit > 0) { UniformDeep(inp, q, len, off); }
  }

  lemma {:induction false} RowMatch(inp: seq<Byte>, q: nat, lit: nat, size: nat, len: nat, off: nat, avail: nat, maxLazy: nat)
    requires Uniform(inp) && Row(|inp|, q, lit, size) && Deep(inp, q, len, off) && !TakeLiteral(len, off, lit, size == 0)
    requires Occurs(inp, q, off, len) && q + avail <= |inp| && maxLazy <= F
    ensures Straight(len, off, avail, maxLazy) && CodedSize(len, off, lit) >= 2
    ensures Row(|inp|, q + len, 0, size + lit + LitHead(lit, size == 0) + CodedSize(len, off, lit))
  {
    hide Deep, Uniform;
    OccursIn(inp, q, off, len);
    assert q + 3 <= |inp|;
    UniformDeep(inp, q, len, off);
    RowHead(len, lit);
  }

  lemma RowHead(len: nat, lit: nat)
    requires 3 <= len <= F && lit <= 1
    ensures 2 <= CodedSize(len, 1, lit) <= 11
  {
  }

  lemma RowStart(n: nat)
    ensures Row(n, 0, 0, 0)
  {
  }

  lemma RowEnd(n: nat, lit: nat, size: nat)
    requires Row(n, n, lit, size)
    ensures size + lit + LitHead(lit, size == 0) + 3 <= 16 + 11 * n / 2048
  {
  }

  // ---------- the log of a run ----------

  /** A round of the main loop: where it is, the match that was found there, and what became of it: its first byte waits as
      a literal, or a choice is made. */
  datatype Entry = Waits(at: Place, atStart: bool, len: nat, off: nat) | Coded(at: Place, atStart: bool, len: nat, off: nat, choice: Choice)

  /** Position q, before which `lit` literals wait; `direct` if the match at q comes straight from a search. */
  datatype Place = Place(q: nat, lit: nat, direct: bool)

  predicate Shortened(e: Entry)
    requires e.Coded?
  {
    e.choice.taken && !e.atStart && CodedSize(|e.choice.offers|, e.choice.off, e.at.lit) > 0
  }

  /** What a round makes the output grow by: the literals before a match and the match, which is the first one, or the
      two bytes before a better one; or nothing, if the literals go on. */
  function EntryCost(e: Entry): int {
    if e.Waits? || (e.choice.taken && !Shortened(e)) then 0
    else e.at.lit + LitHead(e.at.lit, e.atStart) + (if e.choice.taken then 2 else CodedSize(e.choice.len, e.choice.off, e.at.lit))
  }

  /** Where the next round is. */
  function Next(e: Entry): Place {
    if e.Waits? then Place(e.at.q + 1, e.at.lit + 1, true)
    else if !e.choice.taken then Place(e.at.q + e.choice.len, 0, true)
    else if Shortened(e) then Place(e.at.q + 2, 0, false)
    else Place(e.at.q + |e.choice.offers|, e.at.lit + |e.choice.offers|, false)
  }

  function Spent(log: seq<Entry>): int {
    if log == [] then 0 else Spent(log[..|log| - 1]) + EntryCost(log[|log| - 1])
  }

  function After(log: seq<Entry>): Place {
    if log == [] then Place(0, 0, true) else Next(log[|log| - 1])
  }

  /** Every round is where the one before it leads to. */
  ghost predicate Chained(log: seq<Entry>) {
    forall i :: 0 <= i < |log| ==> log[i].at == After(log[..i]) && (log[i].atStart <==> Spent(log[..i]) == 0)
  }

  /** The rounds account for the whole input and for all bytes of the output. */
  ghost predicate Parsed(log: seq<Entry>, n: nat, size: nat) {
    && Chained(log) && After(log).q == n
    && size == Spent(log) + After(log).lit + LitHead(After(log).lit, Spent(log) == 0) + 3
  }

  /** A round by the rules of the setting. */
  ghost predicate EntryLawful(e: Entry, inp: seq<Byte>, how: Setting) {
    && (e.Waits? <==> TakeLiteral(e.len, e.off, e.at.lit, e.atStart))
    && (e.at.direct && how.chain > 0 && e.at.q < |inp| ==> Deep(inp, e.at.q, e.len, e.off))
    && (e.Coded? ==>
          && Lawful(e.choice, inp, e.at.q, e.at.lit, e.atStart, how)
          && (!how.useBestOff ==> e.choice.len == e.len && e.choice.off == e.off))
  }

  ghost predicate AllLawful(log: seq<Entry>, inp: seq<Byte>, how: Setting) {
    forall i :: 0 <= i < |log| ==> EntryLawful(log[i], inp, how)
  }

  /** The log so far accounts for the output so far. */
  ghost predicate Logged(log: seq<Entry>, inp: seq<Byte>, how: Setting, q: nat, lit: nat, size: nat) {
    AllLawful(log, inp, how) && Chained(log) && After(log).q == q && After(log).lit == lit && size == Spent(log)
  }

  lemma NoneLogged(inp: seq<Byte>, how: Setting)
    ensures Logged([], inp, how, 0, 0, 0) && After([]).direct
  {
  }

  lemma {:induction false} OneMoreLogged(log: seq<Entry>, inp: seq<Byte>, how: Setting, size: nat, e: Entry)
    requires Logged(log, inp, how, e.at.q, e.at.lit, size) && EntryLawful(e, inp, how) && e.at == After(log) && (e.atStart <==> size == 0)
    requires size + EntryCost(e) >= 0
    ensures Logged(log + [e], inp, how, Next(e).q, Next(e).lit, size + EntryCost(e)) && After(log + [e]) == Next(e)
  {
    hide EntryLawful, Next, EntryCost, Spent, After;
    var more := log + [e];
    LastEntry(more, log, e);
    forall i | 0 <= i < |more| ensures more[i].at == After(more[..i]) && (more[i].atStart <==> Spent(more[..i]) == 0) {
      if i < |log| { assert more[..i] == log[..i]; } else { assert more[..i] == log; }
    }
  }

  lemma LastEntry(more: seq<Entry>, log: seq<Entry>, e: Entry)
    requires more == log + [e]
    ensures After(more) == Next(e) && Spent(more) == Spent(log) + EntryCost(e)
  {
    hide Next, EntryCost;
    assert more[..|more| - 1] == log;
  }

  lemma LoggedParsed(log: seq<Entry>, inp: seq<Byte>, how: Setting, lit: nat, size: nat)
    requires Logged(log, inp, how, |inp|, lit, size)
    ensures AllLawful(log, inp, how) && Parsed(log, |inp|, size + lit + LitHead(lit, size == 0) + 3)
  {
    hide AllLawful, Chained, After, Spent, LitHead;
  }

  /** When the first byte of what is found is a literal: nothing is found; two bytes that are more than 1024 back, or come
      after no literal or more than three, or would be the first match; a match at the very start; or three bytes more
      than 3072 back after four literals. */
  lemma TakesLiteral(len: nat, off: nat, lit: nat, atStart: bool)
    ensures TakeLiteral(len, off, lit, atStart) <==>
      len <= 1 || (len == 2 && (off >= 1025 || lit < 1 || 3 < lit || atStart)) || (atStart && lit == 0) || (len == 3 && off >= 3073 && lit > 3)
  {
  }

  /** The first byte of what was found becomes a literal. */
  lemma LogWait(log: seq<Entry>, inp: seq<Byte>, how: Setting, q: nat, lit: nat, size: nat, len: nat, off: nat)
    requires Logged(log, inp, how, q, lit, size) && TakeLiteral(len, off, lit, size == 0)
    requires After(log).direct && how.chain > 0 && q < |inp| ==> Deep(inp, q, len, off)
    ensures var more := log + [Waits(After(log), size == 0, len, off)]; Logged(more, inp, how, q + 1, lit + 1, size) && After(more).direct
  {
    hide Deep, TakeLiteral;
    OneMoreLogged(log, inp, how, size, Waits(After(log), size == 0, len, off));
  }

  /** One match of the main loop, with its entry in the log. */
  method CodeLogged(swd: Swd, how: Setting, q: nat, lit: nat, len: nat, off: nat, avail0: nat, op: seq<Byte>, ghost toks: seq<Token>,
                    ghost log: seq<Entry>)
    returns (op': seq<Byte>, ghost toks': seq<Token>, q': nat, lit': nat, cLen: nat, cOff: nat, avail: nat, ghost log': seq<Entry>)
    requires Searched(swd, q, len, off, avail0) && Pending(swd.inp, q, lit, op, toks)
    requires !TakeLiteral(len, off, lit, op == []) && swd.useBestOff == how.useBestOff
    requires Logged(log, swd.inp, how, q, lit, |op|) && (After(log).direct && how.chain > 0 && q < |swd.inp| ==> Deep(swd.inp, q, len, off))
    modifies swd
    ensures q < q' && Searched(swd, q', cLen, cOff, avail) && Pending(swd.inp, q', lit', op', toks')
    ensures Logged(log', swd.inp, how, q', lit', |op'|) && (After(log').direct && how.chain > 0 && avail > 0 ==> Deep(swd.inp, q', cLen, cOff))
    ensures Straight(len, off, avail0, how.maxLazy) ==>
              && q' == q + len && lit' == 0 && |op'| == |op| + lit + LitHead(lit, op == []) + CodedSize(len, off, lit)
              && After(log').direct
  {
    hide Searched, Pending, TakeLiteral, Straight, LitHead, CodedSize, Lawful, Logged, Spent, Better, Deep, After;
    ghost var choice;
    op', toks', q', lit', cLen, cOff, avail, choice := CodeBest(swd, how.chain, how.goodLength, how.maxLazy, q, lit, len, off, avail0, op, toks);
    ghost var entry := Coded(After(log), op == [], len, off, choice);
    LoggedAt(log, swd.inp, how, q, lit, |op|);
    OneMoreLogged(log, swd.inp, how, |op|, entry);
    log' := log + [entry];
  }

  lemma LoggedAt(log: seq<Entry>, inp: seq<Byte>, how: Setting, q: nat, lit: nat, size: nat)
    requires Logged(log, inp, how, q, lit, size)
    ensures After(log).q == q && After(log).lit == lit
  {
    hide AllLawful, Chained, After, Spent;
  }

  /** lzo1x_999_compress_internal: for every input, every setting and every content of the work memory,
      the output decodes to the input; and every match is chosen by the rules of the setting. */
  method CompressInternal(inp: seq<Byte>, mem: Memory, goodLength: nat, maxLazy: nat, maxChain: nat, useBestOff: bool)
    returns (op: seq<Byte>, ghost toks: seq<Token>, ghost log: seq<Entry>)
    requires Sized(mem)
    ensures Encodes(toks, inp) && AllWellFormed(toks) && op == EncAll(toks) + EOF_MARK
    ensures Decompress(op, |inp|) == Outcome(OK, inp)
    ensures |op| <= MaxCompressedSize(|inp|) && LeanBlock(op, |inp|)
    ensures Uniform(inp) && maxChain > 0 && maxLazy <= F ==> |op| <= 16 + 11 * |inp| / 2048
    ensures AllLawful(log, inp, Setting(goodLength, maxLazy, maxChain, useBestOff)) && Parsed(log, |inp|, |op|)
  {
    hide Wrote, Occurs, Swd.Valid, Frugal, LeanBlock, RunMayFollow, EncAll, Deep, Row, Uniform, Straight, LitHead, CodedSize,
         Lawful, AllLawful, Parsed, Logged, After, Searched, Pending, TakeLiteral, FormOf;
    var how := Setting(goodLength, maxLazy, maxChain, useBestOff);
    NoneLogged(inp, how);
    ghost var law := Uniform(inp) && maxChain > 0 && maxLazy <= F;
    op, toks, log := [], [], [];
    var q: nat, lit: nat := 0, 0;
    var swd, cLen, cOff, avail := FirstSearch(inp, mem, how);
    PendingStart(inp);
    assert Row(|inp|, 0, 0, 0) by { RowStart(|inp|); }
    SearchedAhead(swd, q, cLen, cOff, avail);
    while avail > 0
      invariant Searched(swd, q, cLen, cOff, avail) && swd.inp == inp && Pending(inp, q, lit, op, toks) && q <= |inp|
      invariant fresh(swd) && swd.useBestOff == useBestOff && Logged(log, inp, how, q, lit, |op|) && avail == Ahead(|inp|, q)
      invariant After(log).direct && maxChain > 0 && avail > 0 ==> Deep(inp, q, cLen, cOff)
      invariant law ==> Row(|inp|, q, lit, |op|) && After(log).direct
      decreases |inp| - q
    {
      SearchedAhead(swd, q, cLen, cOff, avail);
      if TakeLiteral(cLen, cOff, lit, op == []) {
        if law { RowLiteral(inp, q, lit, |op|, cLen, cOff); }
        LogWait(log, inp, how, q, lit, |op|, cLen, cOff);
        log := log + [Waits(After(log), |op| == 0, cLen, cOff)];
        cLen, cOff, avail := NextSearch(swd, maxChain, 1, 0, q);
        q, lit := q + 1, lit + 1;
        assert Pending(inp, q, lit, op, toks) by { WaitOne(inp, q - 1, lit - 1, op, toks); }
      } else {
        LongEnough(cLen, cOff, lit, op == []);
        if law { RowMatch(inp, q, lit, |op|, cLen, cOff, avail, maxLazy); }
        op, toks, q, lit, cLen, cOff, avail, log := CodeLogged(swd, how, q, lit, cLen, cOff, avail, op, toks, log);
      }
      SearchedAhead(swd, q, cLen, cOff, avail);
    }
    if law { RowEnd(|inp|, lit, |op|); }
    LoggedParsed(log, inp, how, lit, |op|);
    op, toks := CodeRest(inp, lit, op, toks);
  }

  lemma WaitOne(inp: seq<Byte>, q: nat, lit: nat, op: seq<Byte>, toks: seq<Token>)
    requires Pending(inp, q, lit, op, toks)
    ensures Pending(inp, q + 1, lit + 1, op, toks)
  {
    hide Wrote, Frugal, RunMayFollow;
  }

  lemma LongEnough(len: nat, off: nat, lit: nat, atStart: bool)
    requires !TakeLiteral(len, off, lit, atStart)
    ensures len >= 2
  {
  }

  /** A new dictionary, and the search at the first position. */
  method FirstSearch(inp: seq<Byte>, mem: Memory, how: Setting) returns (swd: Swd, len: nat, off: nat, avail: nat)
    requires Sized(mem)
    ensures fresh(swd) && swd.inp == inp && swd.useBestOff == how.useBestOff && Searched(swd, 0, len, off, avail)
    ensures how.chain > 0 && avail > 0 ==> Deep(inp, 0, len, off)
  {
    hide Occurs, Swd.Valid, Deep;
    swd := new Swd(inp, how.useBestOff, mem.b, mem.head3, mem.succ3, mem.best3, mem.bestOff, mem.bestPos);
    swd.maxChain := how.chain;
    len, off, avail := swd.FindMatch(0, 0);
  }

  /** The final literals and the end marker. */
  method CodeRest(inp: seq<Byte>, lit: nat, op: seq<Byte>, ghost toks: seq<Token>) returns (op': seq<Byte>, ghost toks': seq<Token>)
    requires Pending(inp, |inp|, lit, op, toks)
    ensures Encodes(toks', inp) && AllWellFormed(toks') && op' == EncAll(toks') + EOF_MARK
    ensures Decompress(op', |inp|) == Outcome(OK, inp)
    ensures |op'| <= MaxCompressedSize(|inp|) && LeanBlock(op', |inp|)
    ensures |op'| == |op| + lit + LitHead(lit, op == []) + 3
  {
    hide Wrote, Frugal, LeanBlock, EncAll, RunHead;
    op', toks' := op, toks;
    if lit > 0 {
      var ii := |inp| - lit;
      RunKeepsFrugal(toks, inp[ii..], op == [] && lit <= 238);
      assert inp[ii..ii + lit] == inp[ii..];
      op', toks' := StoreRun(op, inp, ii, lit, op == [] && lit <= 238, toks);
    }
    Finish(inp, op', toks');
    op' := op' + [16 + 1] + [0] + [0];
  }

  lemma PendingStart(inp: seq<Byte>)
    ensures Pending(inp, 0, 0, [], [])
  {
  }

  lemma Finish(inp: seq<Byte>, op: seq<Byte>, toks: seq<Token>)
    requires Wrote(inp, |inp|, op, toks) && Frugal(Start, toks)
    ensures Encodes(toks, inp) && AllWellFormed(toks) && op == EncAll(toks)
    ensures Decompress(op + EOF_MARK, |inp|) == Outcome(OK, inp)
    ensures |op + EOF_MARK| <= MaxCompressedSize(|inp|) && LeanBlock(op + EOF_MARK, |inp|)
  {
    hide LeanBlock, Frugal;
    assert inp[..|inp|] == inp;
    DecompressStream(toks, inp, |inp|);
    FrugalBound(toks, inp);
    WrittenIsLean(toks, inp);
  }

  /** lzo1x_999_compress_level */
  method CompressLevel(inp: seq<Byte>, mem: Memory, level: int) returns (r: int, op: seq<Byte>, ghost log: seq<Entry>)
    requires Sized(mem)
    ensures r == 0 <==> 7 <= level <= 9
    ensures r == 0 ==> Decompress(op, |inp|) == Outcome(OK, inp) && |op| <= MaxCompressedSize(|inp|) && LeanBlock(op, |inp|)
    ensures r == 0 && (forall i :: 0 <= i < |inp| ==> inp[i] == inp[0]) ==> |op| <= 16 + 11 * |inp| / 2048
    ensures r == 0 ==> Parsed(log, |inp|, |op|)
    ensures r == 0 ==> AllLawful(log, inp, if level == 7 then Setting(8, 32, 256, false)
                                           else if level == 8 then Setting(32, 128, 2048, true) else Setting(2048, 2048, 4096, true))
  {
    hide LeanBlock, Lawful, AllLawful, Parsed;
    r, op, log := 0, [], [];
    ghost var toks;
    if level == 7 {
      op, toks, log := CompressInternal(inp, mem, 8, 32, 256, false);
    } else if level == 8 {
      op, toks, log := CompressInternal(inp, mem, 32, 128, 2048, true);
    } else if level == 9 {
      op, toks, log := CompressInternal(inp, mem, F, F, 4096, true);
    } else {
      r := -1;
    }
  }
}
