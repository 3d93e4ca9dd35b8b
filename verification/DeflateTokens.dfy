/** Tokens as bits: the symbols for lengths and distances, and why reading gives the tokens back. */
module DeflateTokens {
  import opened Arithmetic
  import opened BitSeq
  import opened HuffmanCodes
  import opened DeflateFormat

  // ---------- the tables are gapless ----------

  lemma Powers()
    ensures Pow2(0) == 1 && Pow2(1) == 2 && Pow2(2) == 4 && Pow2(3) == 8 && Pow2(4) == 16 && Pow2(5) == 32
    ensures Pow2(6) == 64 && Pow2(7) == 128 && Pow2(8) == 256 && Pow2(9) == 512 && Pow2(10) == 1024
    ensures Pow2(11) == 2048 && Pow2(12) == 4096 && Pow2(13) == 8192
  {
    assert Pow2(1) == 2 * Pow2(0);
    assert Pow2(3) == 2 * Pow2(2);
    assert Pow2(5) == 2 * Pow2(4);
    assert Pow2(7) == 2 * Pow2(6);
    assert Pow2(9) == 2 * Pow2(8);
    assert Pow2(11) == 2 * Pow2(10);
    assert Pow2(13) == 2 * Pow2(12);
  }

  lemma LengthStep(c: nat)
    requires c < 28
    ensures c < 27 ==> LENGTH_BASE[c + 1] == LENGTH_BASE[c] + Pow2(LENGTH_EXTRA[c])
    ensures c == 27 ==> LENGTH_BASE[c] + Pow2(LENGTH_EXTRA[c]) == 259
  {
    hide Pow2;
    Powers();
    assert c == 0 || c == 1 || c == 2 || c == 3 || c == 4 || c == 5 || c == 6 || c == 7 || c == 8 || c == 9 || c == 10
        || c == 11 || c == 12 || c == 13 || c == 14 || c == 15 || c == 16 || c == 17 || c == 18 || c == 19 || c == 20
        || c == 21 || c == 22 || c == 23 || c == 24 || c == 25 || c == 26 || c == 27;
  }

  lemma DistStep(c: nat)
    requires c < 30
    ensures c < 29 ==> DIST_BASE[c + 1] == DIST_BASE[c] + Pow2(DIST_EXTRA[c])
    ensures c == 29 ==> DIST_BASE[c] + Pow2(DIST_EXTRA[c]) == 32769
  {
    hide Pow2;
    Powers();
    assert c == 0 || c == 1 || c == 2 || c == 3 || c == 4 || c == 5 || c == 6 || c == 7 || c == 8 || c == 9 || c == 10
        || c == 11 || c == 12 || c == 13 || c == 14 || c == 15 || c == 16 || c == 17 || c == 18 || c == 19 || c == 20
        || c == 21 || c == 22 || c == 23 || c == 24 || c == 25 || c == 26 || c == 27 || c == 28 || c == 29;
  }

  /** The last entry of a table, from c down, that does not exceed v. */
  function LastBelow(table: seq<nat>, v: nat, c: nat): (r: nat)
    requires c < |table|
    ensures r <= c
  {
    if c == 0 || table[c] <= v then c else LastBelow(table, v, c - 1)
  }

  /** The length code, less 257; length 258 has its own. */
  function LengthCode(len: nat): (c: nat)
    ensures c < 29
  {
    if len == 258 then 28 else LastBelow(LENGTH_BASE, len, 27)
  }

  function DistCode(dist: nat): (c: nat)
    ensures c < 30
  {
    LastBelow(DIST_BASE, dist, 29)
  }

  lemma {:induction false} LengthFrom(len: nat, c: nat)
    requires 3 <= len && c < 28 && (c < 27 ==> len < LENGTH_BASE[c + 1]) && (c == 27 ==> len <= 258)
    ensures var r := LastBelow(LENGTH_BASE, len, c); LENGTH_BASE[r] <= len < LENGTH_BASE[r] + Pow2(LENGTH_EXTRA[r])
    decreases c
  {
    hide Pow2;
    LengthStep(c);
    if c > 0 && LENGTH_BASE[c] > len { LengthFrom(len, c - 1); }
  }

  lemma {:induction false} DistFrom(dist: nat, c: nat)
    requires 1 <= dist && c < 30 && (c < 29 ==> dist < DIST_BASE[c + 1]) && (c == 29 ==> dist <= 32768)
    ensures var r := LastBelow(DIST_BASE, dist, c); DIST_BASE[r] <= dist < DIST_BASE[r] + Pow2(DIST_EXTRA[r])
    decreases c
  {
    hide Pow2;
    DistStep(c);
    if c > 0 && DIST_BASE[c] > dist { DistFrom(dist, c - 1); }
  }

  predicate Sound(t: Token) {
    t.Lit? || (3 <= t.len <= 258 && 1 <= t.dist <= 32768)
  }

  /** The extra bits have room for the offset from the base. */
  lemma {:induction false} OffsetsFit(t: Token)
    requires Sound(t) && t.Ref?
    ensures var c := LengthCode(t.len); LENGTH_BASE[c] <= t.len < LENGTH_BASE[c] + Pow2(LENGTH_EXTRA[c])
    ensures var e := DistCode(t.dist); DIST_BASE[e] <= t.dist < DIST_BASE[e] + Pow2(DIST_EXTRA[e])
  {
    hide Pow2;
    Powers();
    if t.len != 258 { LengthFrom(t.len, 27); }
    DistFrom(t.dist, 29);
  }

  // ---------- tokens as bits ----------

  /** The code has every symbol that the token needs. */
  ghost predicate Covered(ll: seq<nat>, dl: seq<nat>, t: Token) {
    && Sound(t)
    && (t.Lit? ==> HasCode(ll, t.b))
    && (t.Ref? ==> HasCode(ll, 257 + LengthCode(t.len)) && HasCode(dl, DistCode(t.dist)))
  }

  ghost function EncMatch(ll: seq<nat>, dl: seq<nat>, len: nat, dist: nat): seq<Bit>
    requires Covered(ll, dl, Ref(len, dist))
  {
    OffsetsFit(Ref(len, dist));
    var c, e := LengthCode(len), DistCode(dist);
    CodeSeq(ll, 257 + c) + LowBits(len - LENGTH_BASE[c], LENGTH_EXTRA[c])
      + CodeSeq(dl, e) + LowBits(dist - DIST_BASE[e], DIST_EXTRA[e])
  }

  ghost function EncToken(ll: seq<nat>, dl: seq<nat>, t: Token): seq<Bit>
    requires Covered(ll, dl, t)
  {
    if t.Lit? then CodeSeq(ll, t.b) else EncMatch(ll, dl, t.len, t.dist)
  }

  ghost predicate AllCovered(ll: seq<nat>, dl: seq<nat>, toks: seq<Token>) {
    forall i :: 0 <= i < |toks| ==> Covered(ll, dl, toks[i])
  }

  ghost function EncTokens(ll: seq<nat>, dl: seq<nat>, toks: seq<Token>): seq<Bit>
    requires AllCovered(ll, dl, toks)
  {
    if toks == [] then [] else EncTokens(ll, dl, toks[..|toks| - 1]) + EncToken(ll, dl, toks[|toks| - 1])
  }

  lemma Four(a: seq<Bit>, b: seq<Bit>, c: seq<Bit>, d: seq<Bit>, rest: seq<Bit>)
    ensures a + b + c + d + rest == a + (b + (c + (d + rest)))
  {
  }

  lemma {:induction false} MatchTail(dl: seq<nat>, c: nat, x: nat, e: nat, y: nat, rest: seq<Bit>)
    requires CodeLens(dl) && c < 29 && e < 30 && HasCode(dl, e) && x < Pow2(LENGTH_EXTRA[c]) && y < Pow2(DIST_EXTRA[e])
    ensures ReadMatch(dl, c, LowBits(x, LENGTH_EXTRA[c]) + (CodeSeq(dl, e) + (LowBits(y, DIST_EXTRA[e]) + rest)))
         == Got(Some(Ref(LENGTH_BASE[c] + x, DIST_BASE[e] + y)), rest)
  {
    hide CodeLens, CodeSeq, LowBits, ReadBits, ReadSymbol, Pow2, HasCode;
    var dextra := LowBits(y, DIST_EXTRA[e]);
    BitsBack(x, LENGTH_EXTRA[c], CodeSeq(dl, e) + (dextra + rest));
    SymbolBack(dl, e, dextra + rest);
    BitsBack(y, DIST_EXTRA[e], rest);
  }

  lemma {:induction false} MatchBack(ll: seq<nat>, dl: seq<nat>, len: nat, dist: nat, rest: seq<Bit>)
    requires CodeLens(ll) && CodeLens(dl) && Covered(ll, dl, Ref(len, dist))
    ensures ReadToken(ll, dl, EncMatch(ll, dl, len, dist) + rest) == Got(Some(Ref(len, dist)), rest)
  {
    hide CodeLens, CodeSeq, LowBits, ReadMatch, ReadSymbol, LengthCode, DistCode, Pow2, HasCode;
    OffsetsFit(Ref(len, dist));
    var c, e := LengthCode(len), DistCode(dist);
    var x, y := len - LENGTH_BASE[c], dist - DIST_BASE[e];
    var code, extra, dcode, dextra := CodeSeq(ll, 257 + c), LowBits(x, LENGTH_EXTRA[c]), CodeSeq(dl, e), LowBits(y, DIST_EXTRA[e]);
    Four(code, extra, dcode, dextra, rest);
    SymbolBack(ll, 257 + c, extra + (dcode + (dextra + rest)));
    MatchTail(dl, c, x, e, y, rest);
  }

  lemma {:induction false} TokenBack(ll: seq<nat>, dl: seq<nat>, t: Token, rest: seq<Bit>)
    requires CodeLens(ll) && CodeLens(dl) && Covered(ll, dl, t)
    ensures ReadToken(ll, dl, EncToken(ll, dl, t) + rest) == Got(Some(t), rest)
  {
    hide CodeLens, CodeSeq, EncMatch, ReadSymbol, ReadMatch;
    if t.Lit? {
      SymbolBack(ll, t.b, rest);
    } else {
      MatchBack(ll, dl, t.len, t.dist, rest);
    }
  }

  /** The bits of the tokens before what is read from the rest. */
  lemma {:induction false} TokensBefore(ll: seq<nat>, dl: seq<nat>, toks: seq<Token>, rest: seq<Bit>)
    requires CodeLens(ll) && CodeLens(dl) && AllCovered(ll, dl, toks)
    ensures var more := ReadTokens(ll, dl, rest);
            ReadTokens(ll, dl, EncTokens(ll, dl, toks) + rest) == if more.Bad? then Bad else Got(toks + more.value, more.rest)
    decreases |toks|
  {
    hide CodeLens, ReadToken, EncToken, Covered;
    if toks == [] {
      assert EncTokens(ll, dl, toks) + rest == rest;
      var more := ReadTokens(ll, dl, rest);
      if more.Got? { assert toks + more.value == more.value; }
    } else {
      var n := |toks| - 1;
      var t := toks[n];
      var bits := EncToken(ll, dl, t);
      TokenBack(ll, dl, t, rest);
      TokensBefore(ll, dl, toks[..n], bits + rest);
      assert EncTokens(ll, dl, toks) + rest == EncTokens(ll, dl, toks[..n]) + (bits + rest);
      var more := ReadTokens(ll, dl, rest);
      if more.Got? { assert toks[..n] + ([t] + more.value) == toks + more.value; }
    }
  }

  /** A block's tokens and its end code are read back, whatever follows. */
  lemma {:induction false} TokensBack(ll: seq<nat>, dl: seq<nat>, toks: seq<Token>, rest: seq<Bit>)
    requires CodeLens(ll) && CodeLens(dl) && AllCovered(ll, dl, toks) && HasCode(ll, END_BLOCK)
    ensures ReadTokens(ll, dl, EncTokens(ll, dl, toks) + CodeSeq(ll, END_BLOCK) + rest) == Got(toks, rest)
  {
    hide CodeLens, CodeSeq, ReadSymbol, EncTokens, AllCovered, ReadMatch;
    var tail := CodeSeq(ll, END_BLOCK) + rest;
    SymbolBack(ll, END_BLOCK, rest);
    assert ReadTokens(ll, dl, tail) == Got([], rest);
    TokensBefore(ll, dl, toks, tail);
    assert EncTokens(ll, dl, toks) + CodeSeq(ll, END_BLOCK) + rest == EncTokens(ll, dl, toks) + tail;
    assert toks + [] == toks;
  }
}
