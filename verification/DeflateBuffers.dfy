/** The buffers that hold the tokens of a block: l_buf, d_buf and flag_buf; and compress_block, which reads them. */
module DeflateBuffers {
  import opened Arithmetic
  import opened Bytes
  import opened BitSeq
  import opened HuffmanCodes
  import opened BitWriter
  import opened DeflateFormat
  import opened DeflateTokens
  import opened DeflateTables
  import opened DeflateTrees

  const LIT_BUFSIZE := 0x2000
  const DIST_BUFSIZE := 0x2000

  /** One bit for each token: whether it is a match. */
  function RefBits(toks: seq<Token>): (r: seq<Bit>)
    ensures |r| == |toks| && forall i :: 0 <= i < |r| ==> r[i] == toks[i].Ref?
  {
    seq(|toks|, i requires 0 <= i < |toks| => toks[i].Ref?)
  }

  /** The distances of the matches, less one. */
  function Dists(toks: seq<Token>): (r: seq<int>)
    ensures |r| <= |toks|
  {
    if toks == [] then []
    else
      var n := |toks| - 1;
      if toks[n].Ref? then Dists(toks[..n]) + [toks[n].dist - 1] else Dists(toks[..n])
  }

  /** The byte that l_buf holds for a token. */
  function Lc(t: Token): Byte
    requires Sound(t)
  {
    if t.Lit? then t.b else t.len - 3
  }

  ghost predicate AllSound(toks: seq<Token>) {
    forall i :: 0 <= i < |toks| ==> Sound(toks[i])
  }

  ghost predicate Lcs(l: seq<Byte>, toks: seq<Token>) {
    |toks| <= |l| && AllSound(toks) && forall i :: 0 <= i < |toks| ==> l[i] == Lc(toks[i])
  }

  /** The flags of tokens 8j to 8j + 7, as far as they exist. */
  ghost function FlagByte(toks: seq<Token>, j: nat): nat
    requires 8 * j <= |toks|
  {
    Number(RefBits(toks)[8 * j..if 8 * j + 8 <= |toks| then 8 * j + 8 else |toks|])
  }

  ghost predicate Flags(f: seq<Byte>, toks: seq<Token>, n: nat) {
    8 * n <= |toks| && n <= |f| && forall j :: 0 <= j < n ==> f[j] == FlagByte(toks, j)
  }

  /** What the buffers and counters hold. */
  ghost predicate Stored(l: seq<Byte>, d: seq<nat>, f: seq<Byte>, lastDist: nat, lastFlags: nat, flags: nat, flagBit: nat, toks: seq<Token>) {
    && |l| == LIT_BUFSIZE && |d| == DIST_BUFSIZE && |f| == LIT_BUFSIZE / 8 && |toks| < LIT_BUFSIZE
    && Lcs(l, toks)
    && lastDist == |Dists(toks)| && d[..lastDist] == Dists(toks)
    && lastFlags == |toks| / 8 && Flags(f, toks, lastFlags)
    && flags == FlagByte(toks, lastFlags) && flagBit == Pow2(|toks| % 8)
  }

  // ---------- adding a token ----------

  lemma {:induction false} DistsSnoc(toks: seq<Token>, t: Token)
    ensures Dists(toks + [t]) == if t.Ref? then Dists(toks) + [t.dist - 1] else Dists(toks)
  {
    assert (toks + [t])[..|toks|] == toks;
  }

  /** The bits so far and one more above them. */
  lemma {:induction false} NumberSnoc(s: seq<Bit>, b: Bit)
    ensures Number(s + [b]) == Number(s) + (if b then Pow2(|s|) else 0)
    decreases |s|
  {
    if s == [] {
      assert [b][1..] == [];
      assert Number([b]) == (if b then 1 else 0) + 2 * Number([]);
    } else {
      assert (s + [b])[1..] == s[1..] + [b];
      NumberSnoc(s[1..], b);
    }
  }

  lemma {:induction false} FlagKept(toks: seq<Token>, t: Token, j: nat)
    requires 8 * j + 8 <= |toks|
    ensures FlagByte(toks + [t], j) == FlagByte(toks, j)
  {
    hide Number;
    assert RefBits(toks + [t])[8 * j..8 * j + 8] == RefBits(toks)[8 * j..8 * j + 8];
  }

  lemma {:induction false} FlagGrows(toks: seq<Token>, t: Token)
    ensures var n := |toks| / 8; FlagByte(toks + [t], n) == FlagByte(toks, n) + (if t.Ref? then Pow2(|toks| % 8) else 0)
  {
    hide Number, Pow2;
    var n := |toks| / 8;
    var s := RefBits(toks)[8 * n..];
    assert RefBits(toks + [t])[8 * n..] == s + [t.Ref?];
    assert RefBits(toks + [t])[8 * n..|toks| + 1] == s + [t.Ref?];
    assert RefBits(toks)[8 * n..|toks|] == s;
    NumberSnoc(s, t.Ref?);
  }

  lemma NoFlags(toks: seq<Token>, j: nat)
    requires 8 * j == |toks|
    ensures FlagByte(toks, j) == 0
  {
    assert RefBits(toks)[8 * j..|toks|] == [];
  }

  lemma {:induction false} FlagFits(toks: seq<Token>, j: nat)
    requires 8 * j <= |toks|
    ensures FlagByte(toks, j) < 256
  {
    hide Number, Pow2;
    var top := if 8 * j + 8 <= |toks| then 8 * j + 8 else |toks|;
    NumberFits(RefBits(toks)[8 * j..top]);
    Pow2Mono(top - 8 * j, 8);
    Powers();
  }

  lemma NextBit(k: nat)
    requires k < 7
    ensures Pow2(k + 1) == 2 * Pow2(k)
  {
  }

  /** One more token in the buffers. */
  lemma {:induction false} StoredSnoc(l: seq<Byte>, d: seq<nat>, f: seq<Byte>, lastDist: nat, lastFlags: nat, flags: nat, flagBit: nat, toks: seq<Token>, t: Token)
    requires Stored(l, d, f, lastDist, lastFlags, flags, flagBit, toks) && Sound(t) && |toks| + 1 < LIT_BUFSIZE
    ensures var l' := l[|toks| := Lc(t)]; var flags' := flags + (if t.Ref? then flagBit else 0);
            var d' := if t.Ref? then d[lastDist := t.dist - 1] else d;
            var n' := if t.Ref? then lastDist + 1 else lastDist;
            && flags' < 256 && lastFlags < |f|
            && if (|toks| + 1) % 8 == 0 then Stored(l', d', f[lastFlags := flags'], n', lastFlags + 1, 0, 1, toks + [t])
               else Stored(l', d', f, n', lastFlags, flags', flagBit * 2, toks + [t])
  {
    hide Number, Pow2, FlagByte, Dists;
    var all := toks + [t];
    DistsSnoc(toks, t);
    var d' := if t.Ref? then d[lastDist := t.dist - 1] else d;
    var n' := if t.Ref? then lastDist + 1 else lastDist;
    assert d'[..n'] == Dists(all);
    FlagGrows(toks, t);
    FlagFits(all, lastFlags);
    forall j | 0 <= j < lastFlags ensures f[j] == FlagByte(all, j) { FlagKept(toks, t, j); }
    var k := |toks| % 8;
    if k == 7 {
      assert |all| == 8 * (lastFlags + 1);
      NoFlags(all, lastFlags + 1);
      Powers();
    } else {
      NextBit(k);
    }
  }

  // ---------- reading the tokens ----------

  lemma {:induction false} DistsAt(toks: seq<Token>, i: nat)
    requires i < |toks| && toks[i].Ref?
    ensures |Dists(toks[..i])| < |Dists(toks)| && Dists(toks)[|Dists(toks[..i])|] == toks[i].dist - 1
    decreases |toks|
  {
    var n := |toks| - 1;
    if i < n {
      DistsAt(toks[..n], i);
      assert toks[..n][..i] == toks[..i];
    }
  }

  /** The flags that are left when token i is next. */
  ghost function FlagsLeft(toks: seq<Token>, i: nat): nat
    requires i < |toks|
  {
    Number(RefBits(toks)[i..FlagEnd(toks, i)])
  }

  function FlagEnd(toks: seq<Token>, i: nat): (e: nat)
    requires i < |toks|
    ensures i < e <= |toks|
  {
    var top := 8 * (i / 8) + 8;
    if top <= |toks| then top else |toks|
  }

  lemma {:induction false} FlagNext(toks: seq<Token>, i: nat)
    requires i < |toks|
    ensures FlagsLeft(toks, i) % 2 == (if toks[i].Ref? then 1 else 0)
    ensures i + 1 < |toks| && (i + 1) % 8 != 0 ==> FlagsLeft(toks, i) / 2 == FlagsLeft(toks, i + 1)
    ensures i % 8 == 0 ==> FlagsLeft(toks, i) == FlagByte(toks, i / 8)
  {
    var s := RefBits(toks)[i..FlagEnd(toks, i)];
    assert s[0] == toks[i].Ref?;
    assert s[1..] == RefBits(toks)[i + 1..FlagEnd(toks, i)];
  }

  /** The symbols of a token in a pair of trees that have reversed codes for them. */
  ghost predicate Sends(ll: seq<nat>, lcodes: seq<nat>, dl: seq<nat>, dcodes: seq<nat>, t: Token) {
    && Covered(ll, dl, t)
    && (t.Lit? ==> t.b < |lcodes|)
    && (t.Ref? ==> 257 + LengthCode(t.len) < |lcodes| && DistCode(t.dist) < |dcodes|)
  }

  /** What the tables say about one match. */
  lemma {:induction false} TablesAt(t: Tables, lc: nat, dist: nat)
    requires GoodTables(t) && lc < 256 && dist < 32768
    ensures |t.lengthCode| == 256 && |t.baseLength| == 29 && |t.distCode| == 512 && |t.baseDist| == 30
    ensures var c := t.lengthCode[lc];
            && c == LengthCode(lc + 3) && LENGTH_BASE[c] <= lc + 3 < LENGTH_BASE[c] + Pow2(LENGTH_EXTRA[c])
            && LENGTH_EXTRA[c] <= 5 && (LENGTH_EXTRA[c] != 0 ==> t.baseLength[c] + 3 == LENGTH_BASE[c])
    ensures var e := DCode(t, dist);
            && e == DistCode(dist + 1) && DIST_BASE[e] <= dist + 1 < DIST_BASE[e] + Pow2(DIST_EXTRA[e])
            && DIST_EXTRA[e] <= 13 && t.baseDist[e] + 1 == DIST_BASE[e]
  {
    hide Pow2, LastBelow;
    OffsetsFit(Ref(lc + 3, dist + 1));
    ExtrasFit(LengthCode(lc + 3), DistCode(dist + 1));
  }

  /** The extra bits, if there are any. */
  method SendExtra(w: Writer, v: nat, base: nat, extra: nat, ghost offset: nat)
    requires w.Valid() && extra <= 16 && offset < Pow2(extra) && (extra != 0 ==> v - base == offset)
    modifies w, w.outbuf
    ensures w.Valid() && w.Bits() == old(w.Bits()) + LowBits(offset, extra)
  {
    hide LowBits, Pow2;
    if extra != 0 { w.SendBits(v - base, extra); } else { NoExtra(offset); }
  }

  /** One match as compress_block sends it. */
  method SendMatch(w: Writer, t: Tables, ll: seq<nat>, lcodes: seq<nat>, dl: seq<nat>, dcodes: seq<nat>, lc: nat, dist: nat)
    requires w.Valid() && GoodTables(t) && Codes(lcodes, ll) && Codes(dcodes, dl) && lc < 256 && dist < 32768
    requires Sends(ll, lcodes, dl, dcodes, Ref(lc + 3, dist + 1))
    modifies w, w.outbuf
    ensures w.Valid() && w.Bits() == old(w.Bits()) + EncToken(ll, dl, Ref(lc + 3, dist + 1))
  {
    hide Codes, CodeSeq, LowBits, Pow2, LengthCode, DistCode, GoodTables, DCode;
    hide LENGTH_BASE, DIST_BASE, LENGTH_EXTRA, DIST_EXTRA, Writer.Bits, Writer.Valid;
    TableSizes();
    TablesAt(t, lc, dist);
    var code := t.lengthCode[lc];
    SendCode(w, lcodes, ll, code + 257);
    SendExtra(w, lc, t.baseLength[code], LENGTH_EXTRA[code], lc + 3 - LENGTH_BASE[code]);
    ghost var c, sent := code, w.Bits();
    code := DCode(t, dist);
    SendCode(w, dcodes, dl, code);
    SendExtra(w, dist, t.baseDist[code], DIST_EXTRA[code], dist + 1 - DIST_BASE[code]);
    Associate(old(w.Bits()), CodeSeq(ll, 257 + c), LowBits(lc + 3 - LENGTH_BASE[c], LENGTH_EXTRA[c]), CodeSeq(dl, code),
              LowBits(dist + 1 - DIST_BASE[code], DIST_EXTRA[code]));
  }

  lemma NoExtra(v: nat)
    ensures LowBits(v, 0) == []
  {
  }

  /** Code 28 has no extra bits; so its base, which ct_init does not set, is not used. */
  lemma ExtrasFit(c: nat, e: nat)
    requires c < 29 && e < 30
    ensures LENGTH_EXTRA[c] <= 5 && DIST_EXTRA[e] <= 13 && (LENGTH_EXTRA[c] != 0 ==> c < 28)
  {
    assert c == 0 || c == 1 || c == 2 || c == 3 || c == 4 || c == 5 || c == 6 || c == 7 || c == 8 || c == 9 || c == 10
        || c == 11 || c == 12 || c == 13 || c == 14 || c == 15 || c == 16 || c == 17 || c == 18 || c == 19 || c == 20
        || c == 21 || c == 22 || c == 23 || c == 24 || c == 25 || c == 26 || c == 27 || c == 28;
    assert e == 0 || e == 1 || e == 2 || e == 3 || e == 4 || e == 5 || e == 6 || e == 7 || e == 8 || e == 9 || e == 10
        || e == 11 || e == 12 || e == 13 || e == 14 || e == 15 || e == 16 || e == 17 || e == 18 || e == 19 || e == 20
        || e == 21 || e == 22 || e == 23 || e == 24 || e == 25 || e == 26 || e == 27 || e == 28 || e == 29;
  }

  ghost predicate AllSends(ll: seq<nat>, lcodes: seq<nat>, dl: seq<nat>, dcodes: seq<nat>, toks: seq<Token>) {
    forall i :: 0 <= i < |toks| ==> Sends(ll, lcodes, dl, dcodes, toks[i])
  }

  lemma {:induction false} EncSnoc(ll: seq<nat>, dl: seq<nat>, toks: seq<Token>, i: nat)
    requires i < |toks| && AllCovered(ll, dl, toks)
    ensures AllCovered(ll, dl, toks[..i]) && AllCovered(ll, dl, toks[..i + 1])
    ensures EncTokens(ll, dl, toks[..i + 1]) == EncTokens(ll, dl, toks[..i]) + EncToken(ll, dl, toks[i])
  {
    hide EncToken, Covered;
    assert toks[..i + 1][..i] == toks[..i];
  }

  /** The next token: a literal if the flag's lowest bit is clear. */
  method SendToken(w: Writer, l: seq<Byte>, d: seq<nat>, lx: nat, dx0: nat, flag: nat, t: Tables,
                   ll: seq<nat>, lcodes: seq<nat>, dl: seq<nat>, dcodes: seq<nat>, ghost toks: seq<Token>) returns (dx: nat)
    requires w.Valid() && GoodTables(t) && Codes(lcodes, ll) && Codes(dcodes, dl) && AllSends(ll, lcodes, dl, dcodes, toks)
    requires lx < |toks| && Lcs(l, toks) && Dists(toks) <= d && dx0 == |Dists(toks[..lx])|
    requires flag % 2 == if toks[lx].Ref? then 1 else 0
    modifies w, w.outbuf
    ensures w.Valid() && Covered(ll, dl, toks[lx]) && w.Bits() == old(w.Bits()) + EncToken(ll, dl, toks[lx])
    ensures dx == |Dists(toks[..lx + 1])|
  {
    hide Codes, CodeSeq, EncToken, GoodTables, Dists, Pow2, LengthCode, DistCode, Lcs, AllSends, Writer.Bits, Writer.Valid;
    LcAt(l, toks, lx);
    SendsAt(ll, lcodes, dl, dcodes, toks, lx);
    DistsNext(toks, lx);
    dx := dx0;
    var lc := l[lx];
    if flag % 2 == 0 {
      SendCode(w, lcodes, ll, lc);
      LitBits(ll, dl, toks[lx]);
    } else {
      DistsAt(toks, lx);
      var dist := d[dx];
      dx := dx + 1;
      SendMatch(w, t, ll, lcodes, dl, dcodes, lc, dist);
    }
  }

  /** compress_block: exactly the bits of the stored tokens, and the end of the block. */
  method CompressBlock(w: Writer, l: seq<Byte>, d: seq<nat>, f: seq<Byte>, lastLit: nat, t: Tables,
                       ll: seq<nat>, lcodes: seq<nat>, dl: seq<nat>, dcodes: seq<nat>, ghost toks: seq<Token>)
    requires w.Valid() && GoodTables(t) && Codes(lcodes, ll) && Codes(dcodes, dl) && AllSends(ll, lcodes, dl, dcodes, toks)
    requires |toks| == lastLit && Lcs(l, toks) && Dists(toks) <= d
    requires forall j :: 0 <= j && 8 * j < |toks| ==> j < |f| && f[j] == FlagByte(toks, j)
    requires END_BLOCK < |lcodes| && ll[END_BLOCK] != 0
    modifies w, w.outbuf
    ensures w.Valid() && AllCovered(ll, dl, toks) && HasCode(ll, END_BLOCK)
    ensures w.Bits() == old(w.Bits()) + EncTokens(ll, dl, toks) + CodeSeq(ll, END_BLOCK)
  {
    hide Codes, CodeSeq, EncToken, EncTokens, GoodTables, FlagByte, FlagsLeft, Dists, Pow2, LastBelow, Lcs, AllSends, Writer.Bits, Writer.Valid;
    var lx, dx, fx, flag := 0, 0, 0, 0;
    SendsCovered(ll, lcodes, dl, dcodes, toks);
    NoTokens(ll, dl, toks);
    while lx < lastLit
      invariant 0 <= lx <= lastLit && w.Valid() && AllCovered(ll, dl, toks[..lx])
      invariant w.Bits() == old(w.Bits()) + EncTokens(ll, dl, toks[..lx])
      invariant dx == |Dists(toks[..lx])|
      invariant fx == (lx + 7) / 8 && (lx % 8 != 0 && lx < lastLit ==> flag == FlagsLeft(toks, lx))
    {
      FlagNext(toks, lx);
      EncSnoc(ll, dl, toks, lx);
      if lx % 8 == 0 {
        flag := f[fx];
        fx := fx + 1;
      }
      dx := SendToken(w, l, d, lx, dx, flag, t, ll, lcodes, dl, dcodes, toks);
      lx := lx + 1;
      flag := flag / 2;
    }
    assert toks[..lastLit] == toks;
    SendCode(w, lcodes, ll, END_BLOCK);
  }

  lemma SendsCovered(ll: seq<nat>, lcodes: seq<nat>, dl: seq<nat>, dcodes: seq<nat>, toks: seq<Token>)
    requires AllSends(ll, lcodes, dl, dcodes, toks)
    ensures AllCovered(ll, dl, toks)
  {
    forall i | 0 <= i < |toks| ensures Covered(ll, dl, toks[i]) { assert Sends(ll, lcodes, dl, dcodes, toks[i]); }
  }

  lemma NoTokens(ll: seq<nat>, dl: seq<nat>, toks: seq<Token>)
    ensures AllCovered(ll, dl, toks[..0]) && EncTokens(ll, dl, toks[..0]) == [] && Dists(toks[..0]) == []
  {
  }

  lemma LcAt(l: seq<Byte>, toks: seq<Token>, i: nat)
    requires Lcs(l, toks) && i < |toks|
    ensures Sound(toks[i]) && i < |l| && l[i] == Lc(toks[i])
  {
  }

  lemma SendsAt(ll: seq<nat>, lcodes: seq<nat>, dl: seq<nat>, dcodes: seq<nat>, toks: seq<Token>, i: nat)
    requires AllSends(ll, lcodes, dl, dcodes, toks) && i < |toks|
    ensures Sends(ll, lcodes, dl, dcodes, toks[i])
  {
  }

  lemma DistsNext(toks: seq<Token>, i: nat)
    requires i < |toks|
    ensures |Dists(toks[..i + 1])| == |Dists(toks[..i])| + (if toks[i].Ref? then 1 else 0)
  {
    assert toks[..i + 1][..i] == toks[..i];
  }

  lemma LitBits(ll: seq<nat>, dl: seq<nat>, t: Token)
    requires Covered(ll, dl, t) && t.Lit?
    ensures EncToken(ll, dl, t) == CodeSeq(ll, t.b)
  {
  }
}
