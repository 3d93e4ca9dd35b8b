/** What both compressors write with: literal runs, the extension bytes, and the ghost token list
    that the bytes written so far stand for. */
module LzoWriter {
  import opened Bytes
  import opened LzoFormat

  /** The bytes `op` written so far are the tokens `toks`, and they mean the first `ii` input bytes. */
  ghost predicate Wrote(inp: seq<Byte>, ii: nat, op: seq<Byte>, toks: seq<Token>) {
    && ii <= |inp|
    && Legal(Start, toks) && AllWellFormed(toks) && op == EncAll(toks)
    && Playable([], toks) && Play([], toks) == inp[..ii]
  }

  /** A run can go here: nothing is written yet, or the last token is a match without literals. */
  ghost predicate RunMayFollow(toks: seq<Token>) {
    toks == [] || (toks[|toks| - 1].Match? && toks[|toks| - 1].lits == [])
  }

  method PutExt(op: seq<Byte>, n: nat) returns (op': seq<Byte>)
    requires n >= 1
    ensures op' == op + Ext(n)
  {
    var m := n;
    op' := op;
    while m > 255
      invariant m >= 1
      invariant op' + Ext(m) == op + Ext(n)
    {
      assert op' + Ext(m) == (op' + [0]) + Ext(m - 255);
      m, op' := m - 255, op' + [0];
    }
    op' := op' + [m];
  }

  /** The literals become a token of their own, or are added to the last match. */
  function RunTokens(toks: seq<Token>, lits: seq<Byte>, opening: bool): (r: seq<Token>)
    requires lits != [] && RunMayFollow(toks) && (opening || |lits| > 3 || toks != [])
  {
    if opening then toks + [First(lits)]
    else if |lits| <= 3 then toks[..|toks| - 1] + [toks[|toks| - 1].(lits := lits)]
    else toks + [Run(lits)]
  }

  lemma {:induction false} EncSnoc(toks: seq<Token>, tok: Token)
    requires AllWellFormed(toks) && WellFormed(tok)
    ensures AllWellFormed(toks + [tok]) && EncAll(toks + [tok]) == EncAll(toks) + Enc(tok)
  {
    EncAppend(toks, [tok]);
    assert EncAll([tok]) == Enc(tok) + EncAll([tok][1..]) == Enc(tok);
  }

  lemma {:induction false} PlaySnoc(out: seq<Byte>, toks: seq<Token>, tok: Token)
    requires Playable(out, toks)
    ensures Playable(out, toks + [tok]) <==> Fits(Play(out, toks), tok)
    ensures Fits(Play(out, toks), tok) ==> Play(out, toks + [tok]) == Apply(Play(out, toks), tok)
  {
    PlayAppend(out, toks, [tok]);
    assert [tok][1..] == [];
  }

  lemma {:induction false} LegalSnoc(toks: seq<Token>, tok: Token)
    ensures Legal(Start, toks + [tok]) <==> Legal(Start, toks) && Valid(End(Start, toks), tok)
  {
    LegalAppend(Start, toks, [tok]);
    assert [tok][1..] == [];
  }

  /** Append one token. */
  lemma {:induction false} WroteToken(inp: seq<Byte>, ii: nat, op: seq<Byte>, toks: seq<Token>, tok: Token, jj: nat)
    requires Wrote(inp, ii, op, toks) && ii <= jj <= |inp|
    requires Valid(End(Start, toks), tok) && Fits(inp[..ii], tok) && Apply(inp[..ii], tok) == inp[..jj]
    ensures Wrote(inp, jj, op + Enc(tok), toks + [tok])
  {
    hide Valid, Apply, Enc;
    LegalSnoc(toks, tok);
    assert WellFormed(tok) by { ValidIsWellFormed(End(Start, toks), tok); }
    EncSnoc(toks, tok);
    PlaySnoc([], toks, tok);
  }

  lemma ValidIsWellFormed(ctx: Context, tok: Token)
    requires Valid(ctx, tok)
    ensures WellFormed(tok)
  {
  }

  /** Add literals to the last match: the count goes into the low bits two bytes before the end. */
  lemma {:induction false} WroteTrailing(inp: seq<Byte>, ii: nat, op: seq<Byte>, toks: seq<Token>, t: nat)
    requires Wrote(inp, ii, op, toks) && RunMayFollow(toks) && toks != [] && 1 <= t <= 3 && ii + t <= |inp|
    ensures |op| >= 2
    ensures Wrote(inp, ii + t, op[|op| - 2 := OrLow2(op[|op| - 2], t)] + inp[ii..ii + t],
                  RunTokens(toks, inp[ii..ii + t], false))
  {
    hide Enc, Apply, Valid, OrLow2, WellFormed;
    var k := |toks| - 1;
    var init, last, lits := toks[..k], toks[k], inp[ii..ii + t];
    var last' := last.(lits := lits);
    assert toks == init + [last];
    LegalSnoc(init, last);
    LegalSnoc(init, last');
    TrailingValid(End(Start, init), last, lits);
    EncSnoc(init, last);
    EncSnoc(init, last');
    PlayAppend([], init, [last]);
    PlaySnoc([], init, last);
    PlaySnoc([], init, last');
    PatchEnc(EncAll(init), last, lits);
    TrailingMeaning(Play([], init), last, lits, inp, ii);
  }

  lemma TrailingValid(ctx: Context, last: Token, lits: seq<Byte>)
    requires last.Match? && Valid(ctx, last) && |lits| <= 3
    ensures WellFormed(last) && WellFormed(last.(lits := lits)) && Valid(ctx, last.(lits := lits))
  {
  }

  lemma {:induction false} PatchEnc(pre: seq<Byte>, last: Token, lits: seq<Byte>)
    requires last.Match? && WellFormed(last) && last.lits == [] && |lits| <= 3
    ensures var op := pre + Enc(last);
            |op| >= 2 && op[|op| - 2 := OrLow2(op[|op| - 2], |lits|)] + lits == pre + Enc(last.(lits := lits))
  {
    hide Low, High, Prefix;
    PatchMatch(last.form, last.len, last.off, |lits|);
    var h := MatchHead(last.form, last.len, last.off, 0);
    assert Enc(last) == h;
    var op := pre + h;
    var b := OrLow2(h[|h| - 2], |lits|);
    assert op[|op| - 2] == h[|h| - 2];
    assert op[|op| - 2 := b] == pre + h[|h| - 2 := b];
  }

  lemma {:induction false} TrailingMeaning(out: seq<Byte>, last: Token, lits: seq<Byte>, inp: seq<Byte>, ii: nat)
    requires last.Match? && last.lits == [] && Fits(out, last) && ii + |lits| <= |inp|
    requires Apply(out, last) == inp[..ii] && lits == inp[ii..ii + |lits|]
    ensures Apply(out, last.(lits := lits)) == inp[..ii + |lits|]
  {
    hide Copy;
    var c := Copy(out, last.off, last.len);
    assert c + [] == c;
    assert inp[..ii] + lits == inp[..ii + |lits|];
  }

  method PutRunHead(op: seq<Byte>, t: nat) returns (op': seq<Byte>)
    requires t > 3
    ensures op' == op + RunHead(t)
  {
    if t <= 18 {
      op' := op + [t - 3];
    } else {
      op' := PutExt(op + [0], t - 18);
    }
  }

  /** Store a literal run.  At the start of the output a run of up to 238 takes one byte (if the caller
      asks for that form); up to three literals after a match are counted in the match itself. */
  method StoreRun(op: seq<Byte>, inp: seq<Byte>, ii: nat, t: nat, opening: bool, ghost toks: seq<Token>)
    returns (op': seq<Byte>, ghost toks': seq<Token>)
    requires Wrote(inp, ii, op, toks) && RunMayFollow(toks) && t >= 1 && ii + t <= |inp|
    requires opening ==> toks == [] && t <= 238
    requires !opening && t <= 3 ==> toks != []
    ensures toks' == RunTokens(toks, inp[ii..ii + t], opening)
    ensures Wrote(inp, ii + t, op', toks')
    ensures |op'| == |op| + t + (if opening then 1 else if t <= 3 then 0 else |RunHead(t)|)
  {
    hide Wrote, Enc;
    ghost var lits := inp[ii..ii + t];
    toks' := RunTokens(toks, lits, opening);
    if opening {
      op' := op + [17 + t];
      WroteLits(inp, ii, op, toks, First(lits));
      assert op' + lits == op + Enc(First(lits)) by { EncUnfold(op, First(lits)); }
    } else if t <= 3 {
      WroteTrailing(inp, ii, op, toks, t);
      op' := op[|op| - 2 := OrLow2(op[|op| - 2], t)];
    } else {
      op' := PutRunHead(op, t);
      WroteLits(inp, ii, op, toks, Run(lits));
      assert op' + lits == op + Enc(Run(lits)) by { EncUnfold(op, Run(lits)); }
    }
    op' := AppendBytes(op', inp, ii, t);
  }

  lemma EncUnfold(op: seq<Byte>, tok: Token)
    requires WellFormed(tok)
    ensures (op + Head(tok)) + tok.lits == op + Enc(tok)
  {
  }

  lemma WroteLits(inp: seq<Byte>, ii: nat, op: seq<Byte>, toks: seq<Token>, tok: Token)
    requires Wrote(inp, ii, op, toks) && RunMayFollow(toks) && ii + |tok.lits| <= |inp|
    requires tok.lits == inp[ii..ii + |tok.lits|] && WellFormed(tok)
    requires (tok.First? && toks == []) || tok.Run?
    ensures Wrote(inp, ii + |tok.lits|, op + Enc(tok), toks + [tok])
  {
    hide Enc, Wrote;
    var jj := ii + |tok.lits|;
    assert inp[..ii] + tok.lits == inp[..jj];
    WroteToken(inp, ii, op, toks, tok, jj);
  }

  /** do *op++ = *ii++; while (--t > 0) */
  method AppendBytes(op: seq<Byte>, inp: seq<Byte>, ii: nat, t: nat) returns (op': seq<Byte>)
    requires ii + t <= |inp|
    ensures op' == op + inp[ii..ii + t]
  {
    op' := op;
    for k := 0 to t
      invariant op' == op + inp[ii..ii + k]
    {
      op' := op' + [inp[ii + k]];
    }
  }

  /** An M3 or M4 opcode with its length. */
  method PutLen(op: seq<Byte>, marker: Byte, max: nat, len: nat) returns (op': seq<Byte>)
    requires len >= 3 && max >= 3 && marker + max < 256
    ensures op' == op + LenHead(marker, max, len)
  {
    if len <= max {
      op' := op + [marker + (len - 2)];
    } else {
      op' := PutExt(op + [marker], len - max);
    }
  }

  lemma HighByte(d: nat)
    requires d < 0x8000
    ensures d / 64 % 256 == d % 0x4000 / 64
  {
    if d >= 0x4000 {
      assert d / 64 == 256 + (d - 0x4000) / 64;
    }
  }

  /** m3_m4_offset: the two distance bytes; the second is cut to eight bits. */
  method PutOffset(op: seq<Byte>, form: Form, len: nat, off: nat, d: nat) returns (op': seq<Byte>)
    requires (form.M3? || form.M4?) && InRange(form, len, off) && d == Field(form, off)
    ensures op' == op + [Low(form, len, off), High(form, len, off)]
  {
    HighByte(d);
    op' := op + [d % 64 * 4];
    op' := op' + [d / 64 % 256];
  }

  /** A match in one of the two three-byte-or-longer forms. */
  method PutFar(op: seq<Byte>, len: nat, off: nat) returns (op': seq<Byte>)
    requires len >= 3 && 1 <= off <= M4_MAX_OFFSET
    ensures var form := if off <= M3_MAX_OFFSET then M3 else M4;
            op' == op + MatchHead(form, len, off, 0)
  {
    hide LenHead, Low, High;
    if off <= M3_MAX_OFFSET {
      op' := PutLen(op, 32, M3_MAX_LEN, len);
      op' := PutOffset(op', M3, len, off, off - 1);
    } else {
      var d := off - 0x4000;
      op' := PutLen(op, 16 + d / 0x4000 * 8, M4_MAX_LEN, len);
      op' := PutOffset(op', M4, len, off, d);
    }
  }
}
