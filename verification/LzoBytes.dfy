/** The LZO1X format in bytes: what the decoder makes of each opcode after any stream, with the numbers of the format
    written out. */
module LzoBytes {
  import opened Bytes
  import opened LzoFormat
  import opened LzoDecode
  import opened LzoWriter
  import LzoOptimize

  function ZeroBytes(k: nat): (z: seq<Byte>)
    ensures |z| == k && forall i :: 0 <= i < k ==> z[i] == 0
  {
    seq(k, _ => 0)
  }

  /** A long count: zero bytes stand for 255 each, and a last byte that is not zero for itself. */
  lemma {:induction false} ExtBytes(k: nat, e: Byte)
    requires e >= 1
    ensures Ext(255 * k + e) == ZeroBytes(k) + [e]
    decreases k
  {
    if k > 0 {
      ExtBytes(k - 1, e);
      assert ZeroBytes(k) == [0] + ZeroBytes(k - 1);
    }
  }

  /** A stream of tokens and one more. */
  lemma {:induction false} OneMore(toks: seq<Token>, out: seq<Byte>, tok: Token, cap: nat)
    requires Encodes(toks, out) && Valid(End(Start, toks), tok) && Fits(out, tok) && |Apply(out, tok)| <= cap
    ensures AllWellFormed(toks) && WellFormed(tok)
    ensures Decompress(EncAll(toks) + Head(tok) + tok.lits + [17, 0, 0], cap) == Outcome(OK, Apply(out, tok))
    ensures Encodes(toks + [tok], Apply(out, tok))
  {
    hide Head, Apply, Valid, Decompress;
    LegalWellFormed(Start, toks);
    ValidIsWellFormed(End(Start, toks), tok);
    LegalSnoc(toks, tok);
    PlaySnoc([], toks, tok);
    EncSnoc(toks, tok);
    DecompressStream(toks + [tok], Apply(out, tok), cap);
    assert EncAll(toks) + Head(tok) + tok.lits == EncAll(toks) + Enc(tok);
  }

  /** What came just before an opcode: the literals of the last token. */
  function Before(toks: seq<Token>): nat {
    if toks == [] then 0 else |toks[|toks| - 1].lits|
  }

  lemma ContextIs(toks: seq<Token>)
    requires toks != [] && AllWellFormed(toks)
    ensures Before(toks) == 0 <==> End(Start, toks) == AfterMatch
    ensures 1 <= Before(toks) <= 3 <==> End(Start, toks) == AfterShort
    ensures Before(toks) >= 4 <==> End(Start, toks) == AfterRun
  {
    assert WellFormed(toks[|toks| - 1]);
  }

  // ---------- literals ----------

  /** At the start, a byte above 17 is a count of up to 238 literals. */
  lemma {:induction false} OpeningBytes(lits: seq<Byte>, cap: nat)
    requires 1 <= |lits| <= 238 && |lits| <= cap
    ensures Decompress([17 + |lits|] + lits + [17, 0, 0], cap) == Outcome(OK, lits)
  {
    hide Decompress, Legal, Playable, Play, Encodes, EncAll;
    EmptyStream();
    OneMore([], [], First(lits), cap);
    var head: seq<Byte> := [17 + |lits|];
    assert [] + head == head;
    assert [] + lits == lits;
  }

  lemma EmptyStream()
    ensures Encodes([], []) && EncAll([]) == []
  {
  }

  /** Where no literal came just before, a byte from 1 to 15 is a count of 4 to 18 literals, and zero a longer one. */
  lemma {:induction false} RunBytes(toks: seq<Token>, out: seq<Byte>, lits: seq<Byte>, k: nat, e: Byte, cap: nat)
    requires Encodes(toks, out) && Before(toks) == 0 && |out| + |lits| <= cap && e >= 1
    ensures AllWellFormed(toks)
    ensures 4 <= |lits| <= 18 ==> Decompress(EncAll(toks) + [|lits| - 3] + lits + [17, 0, 0], cap) == Outcome(OK, out + lits)
    ensures |lits| == 18 + 255 * k + e ==>
              Decompress(EncAll(toks) + ([0] + (ZeroBytes(k) + [e])) + lits + [17, 0, 0], cap) == Outcome(OK, out + lits)
  {
    hide Decompress, ZeroBytes, RunHead, Legal, Playable, Play, Encodes, EncAll;
    WellFormedStream(toks, out);
    if toks != [] { ContextIs(toks); }
    if |lits| >= 4 {
      ShortOrLong(|lits|, k, e);
      assert Valid(End(Start, toks), Run(lits));
      assert Head(Run(lits)) == RunHead(|lits|);
      OneMore(toks, out, Run(lits), cap);
    }
  }

  lemma WellFormedStream(toks: seq<Token>, out: seq<Byte>)
    requires Encodes(toks, out)
    ensures AllWellFormed(toks)
  {
    LegalWellFormed(Start, toks);
  }

  lemma ShortOrLong(n: nat, k: nat, e: Byte)
    requires n >= 4 && e >= 1
    ensures n <= 18 ==> RunHead(n) == [n - 3]
    ensures n == 18 + 255 * k + e ==> RunHead(n) == [0] + (ZeroBytes(k) + [e])
  {
    hide Ext, ZeroBytes;
    ExtBytes(k, e);
  }

  // ---------- matches ----------

  /** After a literal, up to three of them or at least four, a byte below 16 is a match: of two bytes up to 1024 back, or of
      three bytes from 2049 to 3072 back. */
  lemma {:induction false} NearBytes(toks: seq<Token>, out: seq<Byte>, b0: Byte, b1: Byte, t: seq<Byte>, cap: nat)
    requires Encodes(toks, out) && b0 < 16 && |t| == b0 % 4 && |out| + 6 <= cap
    ensures AllWellFormed(toks)
    ensures 1 <= Before(toks) <= 3 && 1 + b0 / 4 + (b1 as int) * 4 <= |out| ==>
              Decompress(EncAll(toks) + [b0, b1] + t + [17, 0, 0], cap) == Outcome(OK, Copy(out, 1 + b0 / 4 + (b1 as int) * 4, 2) + t)
    ensures Before(toks) >= 4 && 2049 + b0 / 4 + (b1 as int) * 4 <= |out| ==>
              Decompress(EncAll(toks) + [b0, b1] + t + [17, 0, 0], cap) == Outcome(OK, Copy(out, 2049 + b0 / 4 + (b1 as int) * 4, 3) + t)
  {
    hide Decompress, Copy;
    LegalWellFormed(Start, toks);
    if Before(toks) > 0 { ContextIs(toks); }
    NearFields(b0, b1, |t|);
    hide Low, High, Field;
    var near, far := 1 + b0 / 4 + (b1 as int) * 4, 2049 + b0 / 4 + (b1 as int) * 4;
    if 1 <= Before(toks) <= 3 && near <= |out| { ShortBytes(toks, out, Match(M1, 2, near, t), b0, b1, cap); }
    if Before(toks) >= 4 && far <= |out| { ShortBytes(toks, out, Match(M1Far, 3, far, t), b0, b1, cap); }
  }

  lemma NearFields(b0: Byte, b1: Byte, n: nat)
    requires b0 < 16 && n == b0 % 4
    ensures var near, far := 1 + b0 / 4 + (b1 as int) * 4, 2049 + b0 / 4 + (b1 as int) * 4;
            && InRange(M1, 2, near) && Low(M1, 2, near) + n == b0 && High(M1, 2, near) == b1
            && InRange(M1Far, 3, far) && Low(M1Far, 3, far) + n == b0 && High(M1Far, 3, far) == b1
  {
  }

  lemma {:induction false} ShortBytes(toks: seq<Token>, out: seq<Byte>, tok: Token, b0: Byte, b1: Byte, cap: nat)
    requires Encodes(toks, out) && Valid(End(Start, toks), tok) && tok.Match? && tok.off <= |out| && |out| + tok.len + |tok.lits| <= cap
    requires Low(tok.form, tok.len, tok.off) + |tok.lits| == b0 && High(tok.form, tok.len, tok.off) == b1 && !tok.form.M3? && !tok.form.M4?
    ensures AllWellFormed(toks)
    ensures Decompress(EncAll(toks) + [b0, b1] + tok.lits + [17, 0, 0], cap) == Outcome(OK, Copy(out, tok.off, tok.len) + tok.lits)
  {
    hide Decompress, Low, High, Copy, EncAll, Legal;
    InRangeOff(tok.form, tok.len, tok.off);
    OneMore(toks, out, tok, cap);
    assert [] + [b0, b1] == [b0, b1];
  }

  lemma InRangeOff(form: Form, len: nat, off: nat)
    requires InRange(form, len, off)
    ensures off >= 1 && len >= 2
  {
  }

  /** A byte from 64 on is a match of three to eight bytes up to 2048 back. */
  lemma {:induction false} MediumBytes(toks: seq<Token>, out: seq<Byte>, b0: Byte, b1: Byte, t: seq<Byte>, cap: nat)
    requires Encodes(toks, out) && toks != [] && b0 >= 64 && |t| == b0 % 4 && |out| + 11 <= cap
    requires 1 + b0 / 4 % 8 + (b1 as int) * 8 <= |out|
    ensures AllWellFormed(toks)
    ensures Decompress(EncAll(toks) + [b0, b1] + t + [17, 0, 0], cap)
         == Outcome(OK, Copy(out, 1 + b0 / 4 % 8 + (b1 as int) * 8, b0 / 32 + 1) + t)
  {
    hide Decompress, Copy;
    LegalWellFormed(Start, toks);
    ContextIs(toks);
    var off := 1 + b0 / 4 % 8 + (b1 as int) * 8;
    MediumFields(b0, b1, off, |t|);
    ShortBytes(toks, out, Match(M2, b0 / 32 + 1, off, t), b0, b1, cap);
  }

  lemma MediumFields(b0: Byte, b1: Byte, off: nat, n: nat)
    requires b0 >= 64 && off == 1 + b0 / 4 % 8 + (b1 as int) * 8 && n == b0 % 4
    ensures InRange(M2, b0 / 32 + 1, off) && Low(M2, b0 / 32 + 1, off) + n == b0 && High(M2, b0 / 32 + 1, off) == b1
  {
    var d := off - 1;
    assert d / 8 == b1 && d % 8 == b0 / 4 % 8;
    assert b0 == 32 * (b0 / 32) + 4 * (b0 / 4 % 8) + b0 % 4;
  }

  /** The last two bytes of a longer match: the distance above its base, and the count of literals in the two low bits. */
  lemma FarFields(form: Form, len: nat, off: nat, b1: Byte, b2: Byte, n: nat)
    requires (form.M3? || form.M4?) && InRange(form, len, off) && n == b1 % 4
    requires Field(form, off) % 0x4000 == b1 / 4 + (b2 as int) * 64
    ensures Low(form, len, off) + n == b1 && High(form, len, off) == b2
  {
    var d := Field(form, off);
    assert d % 64 == d % 0x4000 % 64;
  }

  lemma {:induction false} LongBytes(toks: seq<Token>, out: seq<Byte>, tok: Token, head: seq<Byte>, b1: Byte, b2: Byte, cap: nat)
    requires Encodes(toks, out) && Valid(End(Start, toks), tok) && tok.Match? && tok.off <= |out| && |out| + tok.len + |tok.lits| <= cap
    requires (tok.form.M3? || tok.form.M4?) && |tok.lits| == b1 % 4 && Field(tok.form, tok.off) % 0x4000 == b1 / 4 + (b2 as int) * 64
    requires Prefix(tok.form, tok.len, tok.off) == head
    ensures AllWellFormed(toks)
    ensures Decompress(EncAll(toks) + (head + [b1, b2]) + tok.lits + [17, 0, 0], cap) == Outcome(OK, Copy(out, tok.off, tok.len) + tok.lits)
  {
    hide Decompress, Low, High, Copy, Prefix, EncAll, Legal, InRange;
    FarFields(tok.form, tok.len, tok.off, b1, b2, |tok.lits|);
    InRangeOff(tok.form, tok.len, tok.off);
    OneMore(toks, out, tok, cap);
  }

  /** A byte from 32 to 63 is a match of any length up to 16384 back: 3 to 33 bytes with the length in the byte, more with a
      long count. */
  lemma {:induction false} FarBytes(toks: seq<Token>, out: seq<Byte>, b0: Byte, k: nat, e: Byte, b1: Byte, b2: Byte, t: seq<Byte>, cap: nat)
    requires Encodes(toks, out) && toks != [] && 32 <= b0 < 64 && e >= 1 && |t| == b1 % 4
    requires var len := if b0 == 32 then 33 + 255 * k + e else b0 - 30; |out| + len + |t| <= cap
    requires 1 + b1 / 4 + (b2 as int) * 64 <= |out|
    ensures AllWellFormed(toks)
    ensures var off, s := 1 + b1 / 4 + (b2 as int) * 64, EncAll(toks);
            && (b0 != 32 ==> Decompress(s + ([b0] + [b1, b2]) + t + [17, 0, 0], cap) == Outcome(OK, Copy(out, off, b0 - 30) + t))
            && (b0 == 32 ==>
                  Decompress(s + ([32] + (ZeroBytes(k) + [e]) + [b1, b2]) + t + [17, 0, 0], cap) == Outcome(OK, Copy(out, off, 33 + 255 * k + e) + t))
  {
    hide Decompress, Copy, Ext, ZeroBytes, EncAll, Legal;
    LegalWellFormed(Start, toks);
    ContextIs(toks);
    ExtBytes(k, e);
    var off := 1 + b1 / 4 + (b2 as int) * 64;
    if b0 == 32 {
      LongBytes(toks, out, Match(M3, 33 + 255 * k + e, off, t), [32] + (ZeroBytes(k) + [e]), b1, b2, cap);
    } else {
      LongBytes(toks, out, Match(M3, b0 - 30, off, t), [b0], b1, b2, cap);
    }
  }

  /** A byte from 16 to 31 is a match of any length from 16385 to 49151 back: 3 to 9 bytes with the length in the byte, more
      with a long count; bit 3 of the byte is worth 16384. */
  lemma {:induction false} FarthestBytes(toks: seq<Token>, out: seq<Byte>, h: nat, l: nat, k: nat, e: Byte, b1: Byte, b2: Byte, t: seq<Byte>, cap: nat)
    requires Encodes(toks, out) && toks != [] && h < 2 && l < 8 && e >= 1 && |t| == b1 % 4
    requires var len := if l == 0 then 9 + 255 * k + e else l + 2; |out| + len + |t| <= cap
    requires var d := h * 0x4000 + b1 / 4 + (b2 as int) * 64; 1 <= d && 0x4000 + d <= |out|
    ensures AllWellFormed(toks)
    ensures var off, s := 0x4000 + h * 0x4000 + b1 / 4 + (b2 as int) * 64, EncAll(toks);
            && (l != 0 ==> Decompress(s + ([16 + 8 * h + l] + [b1, b2]) + t + [17, 0, 0], cap) == Outcome(OK, Copy(out, off, l + 2) + t))
            && (l == 0 ==>
                  Decompress(s + ([16 + 8 * h] + (ZeroBytes(k) + [e]) + [b1, b2]) + t + [17, 0, 0], cap) == Outcome(OK, Copy(out, off, 9 + 255 * k + e) + t))
  {
    hide Decompress, Copy, Ext, ZeroBytes, EncAll, Legal;
    LegalWellFormed(Start, toks);
    ContextIs(toks);
    ExtBytes(k, e);
    var d := h * 0x4000 + b1 / 4 + (b2 as int) * 64;
    assert d / 0x4000 == h && d % 0x4000 == b1 / 4 + (b2 as int) * 64;
    if l == 0 {
      LongBytes(toks, out, Match(M4, 9 + 255 * k + e, 0x4000 + d, t), [16 + 8 * h] + (ZeroBytes(k) + [e]), b1, b2, cap);
    } else {
      LongBytes(toks, out, Match(M4, l + 2, 0x4000 + d, t), [16 + 8 * h + l], b1, b2, cap);
    }
  }

  // ---------- the return codes ----------

  /** What the decoder does after a stream of tokens. */
  lemma {:induction false} After(toks: seq<Token>, out: seq<Byte>, more: seq<Byte>, cap: nat)
    requires Encodes(toks, out) && |out| <= cap && more != []
    ensures AllWellFormed(toks)
    ensures Decompress(EncAll(toks) + more, cap) == Decode(EncAll(toks) + more, |EncAll(toks)|, End(Start, toks), out, cap)
  {
    hide Decode, Legal, EncAll, Playable, Play;
    WellFormedStream(toks, out);
    var inp := EncAll(toks) + more;
    assert inp[0..0 + |EncAll(toks)|] == EncAll(toks);
    LzoOptimize.DecodePrefix(inp, 0, Start, toks, [], cap);
  }

  /** Bytes after the end marker are an error, although everything before them is decoded. */
  lemma {:induction false} TrailingBytes(toks: seq<Token>, out: seq<Byte>, more: seq<Byte>, cap: nat)
    requires Encodes(toks, out) && |out| <= cap && more != []
    ensures AllWellFormed(toks) && Decompress(EncAll(toks) + ([17, 0, 0] + more), cap) == Outcome(InputNotConsumed, out)
  {
    hide Decompress, EncAll, Legal, Playable, Play, Encodes;
    After(toks, out, [17, 0, 0] + more, cap);
    var inp, ip := EncAll(toks) + ([17, 0, 0] + more), |EncAll(toks)|;
    assert inp[ip] == 17 && inp[ip + 1] == 0 && inp[ip + 2] == 0;
    assert ParseOp(inp, ip, End(Start, toks)) == Stop(ip + 3);
  }

  /** A run of literals that does not fit into the output, or of which the input does not have all and a byte more. */
  lemma {:induction false} ShortOfRoom(toks: seq<Token>, out: seq<Byte>, n: nat, lits: seq<Byte>, cap: nat)
    requires Encodes(toks, out) && Before(toks) == 0 && |out| <= cap && 4 <= n <= 18
    ensures AllWellFormed(toks)
    ensures |out| + n > cap ==> Decompress(EncAll(toks) + ([n - 3] + lits), cap) == Outcome(OutputOverrun, out)
    ensures |out| + n <= cap && |lits| <= n ==> Decompress(EncAll(toks) + ([n - 3] + lits), cap) == Outcome(InputOverrun, out)
  {
    hide Decompress, EncAll, Legal, Playable, Play, Encodes;
    var more: seq<Byte> := [n - 3] + lits;
    After(toks, out, more, cap);
    if toks != [] { ContextIs(toks); }
    var inp, ip := EncAll(toks) + more, |EncAll(toks)|;
    assert inp[ip] == n - 3;
    assert ParseOp(inp, ip, End(Start, toks)) == Literals(n, ip + 1);
  }

  /** A match that begins before the output does, or that does not fit into it. */
  lemma {:induction false} ShortOfHistory(toks: seq<Token>, out: seq<Byte>, b0: Byte, b1: Byte, more: seq<Byte>, cap: nat)
    requires Encodes(toks, out) && toks != [] && |out| <= cap && b0 >= 64
    ensures AllWellFormed(toks)
    ensures 1 + b0 / 4 % 8 + (b1 as int) * 8 > |out| ==> Decompress(EncAll(toks) + ([b0, b1] + more), cap) == Outcome(LookbehindOverrun, out)
    ensures 1 + b0 / 4 % 8 + (b1 as int) * 8 <= |out| && |out| + b0 / 32 + 1 > cap ==>
              Decompress(EncAll(toks) + ([b0, b1] + more), cap) == Outcome(OutputOverrun, out)
  {
    hide Decompress, EncAll, Legal, Playable, Play, Encodes, Copy;
    After(toks, out, [b0, b1] + more, cap);
    ContextIs(toks);
    var inp, ip := EncAll(toks) + ([b0, b1] + more), |EncAll(toks)|;
    assert inp[ip] == b0 && inp[ip + 1] == b1;
    assert ParseOp(inp, ip, End(Start, toks)) == CopyOp(b0 / 32 + 1, 1 + b0 / 4 % 8 + (b1 as int) * 8, ip + 2);
  }
}
