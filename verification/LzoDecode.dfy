/** The LZO1X decoder: a byte machine over three literal contexts, the array program that
    runs it (possibly with input and output sharing one buffer), and its relation to tokens. */
module LzoDecode {
  import opened Bytes
  import opened LzoFormat

  /** The return codes of the decoder.  `Overread` stands for the places where the program
      reads an operand byte it has not checked for; nothing is claimed about those. */
  datatype Code =
    | OK | InputOverrun | OutputOverrun | LookbehindOverrun
    | EofNotFound | InputNotConsumed | Overread

  datatype Outcome = Outcome(code: Code, out: seq<Byte>)

  datatype Count = Short | Count(n: nat, next: nat)

  function ReadExt(inp: seq<Byte>, ip: nat, acc: nat): (c: Count)
    ensures c.Count? ==> ip < c.next <= |inp| && c.n > acc
    decreases |inp| - ip
  {
    if ip >= |inp| then Short
    else if inp[ip] == 0 then ReadExt(inp, ip + 1, acc + 255)
    else Count(acc + inp[ip], ip + 1)
  }

  datatype Op =
    | Bad(code: Code)
    | Literals(n: nat, next: nat)
    | CopyOp(len: nat, off: nat, next: nat)
    | Stop(next: nat)

  /** Length field of an M3 or M4 opcode, or of a literal run: a small nonzero value, or an extension. */
  function LenField(inp: seq<Byte>, ip: nat, small: nat, base: nat): (c: Count)
    requires ip <= |inp|
    ensures c.Count? ==> ip <= c.next <= |inp| && c.n >= 1
  {
    if small != 0 then Count(small, ip) else ReadExt(inp, ip, base)
  }

  function FarOp(inp: seq<Byte>, c: Count, m4: bool, high: nat): (o: Op)
    requires c.Count? ==> c.next <= |inp|
    ensures o.CopyOp? ==> c.Count? && o.next == c.next + 2 <= |inp| && o.off >= 1 && o.len == c.n + 2
    ensures o.Stop? ==> c.Count? && o.next == c.next + 2 <= |inp|
    ensures !o.Literals?
  {
    if c.Short? then Bad(InputOverrun)
    else if c.next + 1 >= |inp| then Bad(Overread)
    else
      var d := inp[c.next] / 4 + (inp[c.next + 1] as int) * 64 + high;
      if !m4 then CopyOp(c.n + 2, 1 + d, c.next + 2)
      else if d == 0 then Stop(c.next + 2)
      else CopyOp(c.n + 2, d + 0x4000, c.next + 2)
  }

  /** Decode one opcode with its operands. */
  function ParseOp(inp: seq<Byte>, ip: nat, ctx: Context): (o: Op)
    ensures o.Literals? ==> ip < o.next <= |inp| && o.n >= 1
    ensures o.CopyOp? ==> ip + 2 <= o.next <= |inp| && o.off >= 1 && o.len >= 2
    ensures o.Stop? ==> ip < o.next <= |inp|
  {
    if ip >= |inp| then Bad(if ctx == AfterMatch then EofNotFound else Overread)
    else
      var t: int := inp[ip];
      if ctx == Start && t > 17 then Literals(t - 17, ip + 1)
      else if ctx == AfterShort && ip + 1 >= |inp| then Bad(EofNotFound)
      else if t >= 64 then
        if ip + 1 >= |inp| then Bad(Overread)
        else CopyOp(t / 32 + 1, 1 + t / 4 % 8 + (inp[ip + 1] as int) * 8, ip + 2)
      else if t >= 32 then FarOp(inp, LenField(inp, ip + 1, t % 32, 31), false, 0)
      else if t >= 16 then FarOp(inp, LenField(inp, ip + 1, t % 8, 7), true, t / 8 % 2 * 0x4000)
      else if ctx == Start || ctx == AfterMatch then
        var c := LenField(inp, ip + 1, t, 15);
        if c.Short? then Bad(InputOverrun) else Literals(c.n + 3, c.next)
      else if ip + 1 >= |inp| then Bad(Overread)
      else if ctx == AfterShort then CopyOp(2, 1 + t / 4 + (inp[ip + 1] as int) * 4, ip + 2)
      else CopyOp(3, 1 + M2_MAX_OFFSET + t / 4 + (inp[ip + 1] as int) * 4, ip + 2)
  }

  /** NEED_OP(n) and then NEED_IP(n + 1), from input position ip. */
  function Need(inp: seq<Byte>, ip: nat, out: seq<Byte>, cap: nat, n: nat): (c: Code)
    ensures c == OK <==> |out| + n <= cap && ip + n + 1 <= |inp|
  {
    if |out| + n > cap then OutputOverrun else if ip + n + 1 > |inp| then InputOverrun else OK
  }

  /** What one round of the machine does: finish, or go on from a new position. */
  datatype Round = Done(r: Outcome) | More(ip: nat, ctx: Context, out: seq<Byte>)

  function Step(inp: seq<Byte>, ip: nat, ctx: Context, out: seq<Byte>, cap: nat): (s: Round)
    ensures s.More? ==> ip < s.ip <= |inp|
  {
    match ParseOp(inp, ip, ctx)
    case Bad(code) => Done(Outcome(code, out))
    case Stop(next) => Done(Outcome(if next == |inp| then OK else InputNotConsumed, out))
    case Literals(n, next) => StepLiterals(inp, next, out, cap, n)
    case CopyOp(len, off, next) => StepCopy(inp, next, out, cap, len, off)
  }

  function StepLiterals(inp: seq<Byte>, ip: nat, out: seq<Byte>, cap: nat, n: nat): (s: Round)
    ensures s.More? ==> s.ip == ip + n <= |inp|
  {
    var c := Need(inp, ip, out, cap, n);
    if c != OK then Done(Outcome(c, out))
    else More(ip + n, if n < 4 then AfterShort else AfterRun, out + inp[ip..ip + n])
  }

  function StepCopy(inp: seq<Byte>, ip: nat, out: seq<Byte>, cap: nat, len: nat, off: nat): (s: Round)
    requires 2 <= ip <= |inp| && off >= 1
    ensures s.More? ==> ip <= s.ip <= |inp|
  {
    if off > |out| then Done(Outcome(LookbehindOverrun, out))
    else if |out| + len > cap then Done(Outcome(OutputOverrun, out))
    else
      var out' := Copy(out, off, len);
      var t: int := inp[ip - 2] % 4;
      if t == 0 then More(ip, AfterMatch, out') else StepLiterals(inp, ip, out', cap, t)
  }

  function Decode(inp: seq<Byte>, ip: nat, ctx: Context, out: seq<Byte>, cap: nat): (r: Outcome)
    decreases |inp| - ip
  {
    match Step(inp, ip, ctx, out, cap)
    case Done(r) => r
    case More(ip', ctx', out') => Decode(inp, ip', ctx', out', cap)
  }

  function Decompress(inp: seq<Byte>, cap: nat): (r: Outcome) {
    Decode(inp, 0, Start, [], cap)
  }

  // ---------- decoding what the encoder writes ----------

  lemma {:induction false} ReadExtOfExt(inp: seq<Byte>, ip: nat, n: nat, acc: nat)
    requires n >= 1 && ip + |Ext(n)| <= |inp| && inp[ip..ip + |Ext(n)|] == Ext(n)
    ensures ReadExt(inp, ip, acc) == Count(acc + n, ip + |Ext(n)|)
    decreases n
  {
    assert inp[ip] == inp[ip..ip + |Ext(n)|][0];
    if n > 255 {
      assert inp[ip + 1..ip + 1 + |Ext(n - 255)|] == inp[ip..ip + |Ext(n)|][1..];
      ReadExtOfExt(inp, ip + 1, n - 255, acc + 255);
    }
  }

  lemma {:induction false} ParseLen(inp: seq<Byte>, ip: nat, marker: Byte, small: nat, max: nat, len: nat)
    requires len >= 3 && max >= 3 && marker + max < 256
    requires var h := LenHead(marker, max, len); ip + |h| <= |inp| && inp[ip..ip + |h|] == h
    requires small == if len <= max then len - 2 else 0
    ensures inp[ip] == marker + small
    ensures LenField(inp, ip + 1, small, max - 2) == Count(len - 2, ip + |LenHead(marker, max, len)|)
  {
    var h := LenHead(marker, max, len);
    assert inp[ip] == inp[ip..ip + |h|][0];
    if len > max {
      assert inp[ip + 1..ip + |h|] == inp[ip..ip + |h|][1..] == Ext(len - max);
      ReadExtOfExt(inp, ip + 1, len - max, max - 2);
    }
  }

  lemma {:induction false} ParseRun(inp: seq<Byte>, ip: nat, ctx: Context, n: nat)
    requires n >= 4 && (ctx == Start || ctx == AfterMatch)
    requires var h := RunHead(n); ip + |h| <= |inp| && inp[ip..ip + |h|] == h
    ensures ParseOp(inp, ip, ctx) == Literals(n, ip + |RunHead(n)|)
  {
    var h := RunHead(n);
    assert inp[ip] == inp[ip..ip + |h|][0];
    if n > 18 {
      assert inp[ip + 1..ip + |h|] == inp[ip..ip + |h|][1..] == Ext(n - 18);
      ReadExtOfExt(inp, ip + 1, n - 18, 15);
    }
  }

  lemma {:induction false} ParseM3(inp: seq<Byte>, ip: nat, ctx: Context, len: nat, off: nat, t: nat)
    requires ctx != Start && t < 4 && InRange(M3, len, off)
    requires var p := ip + |Prefix(M3, len, off)|;
             p + 2 <= |inp| && inp[ip..p] == Prefix(M3, len, off) && inp[p] == Low(M3, len, off) + t && inp[p + 1] == High(M3, len, off)
    ensures ParseOp(inp, ip, ctx) == CopyOp(len, off, ip + |Prefix(M3, len, off)| + 2)
  {
    hide LenField, Ext, LenHead;
    var small := if len <= M3_MAX_LEN then len - 2 else 0;
    ParseLen(inp, ip, 32, small, M3_MAX_LEN, len);
  }

  lemma M4Head(h: nat, small: nat)
    requires h < 2 && small < 8
    ensures (16 + h * 8 + small) % 8 == small && (16 + h * 8 + small) / 8 % 2 == h
  {
  }

  lemma M4Field(d: nat, t: nat)
    requires d < 0x8000 && t < 4
    ensures (d % 64 * 4 + t) / 4 + d % 0x4000 / 64 * 64 + d / 0x4000 * 0x4000 == d
  {
    var h, e := d / 0x4000, d % 0x4000;
    assert d == h * 0x4000 + e && d % 64 == e % 64;
    assert (d % 64 * 4 + t) / 4 == d % 64;
  }

  lemma {:induction false} ParseM4(inp: seq<Byte>, ip: nat, ctx: Context, len: nat, off: nat, t: nat)
    requires ctx != Start && t < 4 && InRange(M4, len, off)
    requires var p := ip + |Prefix(M4, len, off)|;
             p + 2 <= |inp| && inp[ip..p] == Prefix(M4, len, off) && inp[p] == Low(M4, len, off) + t && inp[p + 1] == High(M4, len, off)
    ensures ParseOp(inp, ip, ctx) == CopyOp(len, off, ip + |Prefix(M4, len, off)| + 2)
  {
    hide LenField, Ext, LenHead;
    var d := Field(M4, off);
    var marker := 16 + d / 0x4000 * 8;
    var small := if len <= M4_MAX_LEN then len - 2 else 0;
    ParseLen(inp, ip, marker, small, M4_MAX_LEN, len);
    M4Head(d / 0x4000, small);
    M4Field(d, t);
  }

  lemma {:induction false} ParseNear(inp: seq<Byte>, ip: nat, ctx: Context, form: Form, len: nat, off: nat, t: nat)
    requires t < 4 && InRange(form, len, off) && Allowed(ctx, form) && !form.M3? && !form.M4?
    requires ip + 2 < |inp| && inp[ip] == Low(form, len, off) + t && inp[ip + 1] == High(form, len, off)
    ensures ParseOp(inp, ip, ctx) == CopyOp(len, off, ip + 2)
  {
    var t0, t1: int := inp[ip], inp[ip + 1];
    match form
    case M1 => assert t0 / 4 + t1 * 4 == off - 1;
    case M1Far => assert t0 / 4 + t1 * 4 == off - 1 - M2_MAX_OFFSET;
    case M2 =>
      assert t0 / 32 == len - 1;
      assert t0 / 4 % 8 + t1 * 8 == off - 1;
  }

  /** The opcode of a match token is read back as that match, whatever form it takes, and the
      byte two before the end of the opcode tells how many literals follow. */
  lemma {:induction false} ParseMatch(inp: seq<Byte>, ip: nat, ctx: Context, form: Form, len: nat, off: nat, t: nat)
    requires t < 4 && InRange(form, len, off) && Allowed(ctx, form)
    requires var h := MatchHead(form, len, off, t); ip + |h| < |inp| && inp[ip..ip + |h|] == h
    ensures var next := ip + |MatchHead(form, len, off, t)|;
            ParseOp(inp, ip, ctx) == CopyOp(len, off, next) && inp[next - 2] % 4 == t
  {
    hide ParseOp, Low, High;
    var pre := Prefix(form, len, off);
    var tail := [Low(form, len, off) + t, High(form, len, off)];
    SplitToken(inp, ip, pre, tail);
    var p := ip + |pre|;
    assert inp[p] == inp[p..p + 2][0] && inp[p + 1] == inp[p..p + 2][1];
    if form.M3? {
      ParseM3(inp, ip, ctx, len, off, t);
    } else if form.M4? {
      ParseM4(inp, ip, ctx, len, off, t);
    } else {
      ParseNear(inp, ip, ctx, form, len, off, t);
    }
  }

  lemma {:induction false} ParseEof(inp: seq<Byte>, ip: nat, ctx: Context)
    requires ip + 3 == |inp| && inp[ip..] == EOF_MARK
    ensures ParseOp(inp, ip, ctx) == Stop(ip + 3)
  {
    assert inp[ip] == inp[ip..][0] && inp[ip + 1] == inp[ip..][1] && inp[ip + 2] == inp[ip..][2];
  }

  lemma {:induction false} ParseToken(inp: seq<Byte>, ip: nat, ctx: Context, tok: Token)
    requires Valid(ctx, tok)
    requires ip + |Head(tok)| < |inp| && inp[ip..ip + |Head(tok)|] == Head(tok)
    ensures var next := ip + |Head(tok)|;
            ParseOp(inp, ip, ctx) ==
            (if tok.Match? then CopyOp(tok.len, tok.off, next) else Literals(|tok.lits|, next))
            && (tok.Match? ==> next >= 2 && inp[next - 2] % 4 == |tok.lits|)
  {
    hide MatchHead, RunHead;
    match tok
    case First(lits) => assert inp[ip] == inp[ip..ip + |Head(tok)|][0];
    case Run(lits) => ParseRun(inp, ip, ctx, |lits|);
    case Match(form, len, off, lits) => ParseMatch(inp, ip, ctx, form, len, off, |lits|);
  }

  lemma SplitToken(inp: seq<Byte>, ip: nat, h: seq<Byte>, lits: seq<Byte>)
    requires ip + |h| + |lits| <= |inp| && inp[ip..ip + |h + lits|] == h + lits
    ensures inp[ip..ip + |h|] == h && inp[ip + |h|..ip + |h| + |lits|] == lits
  {
    var w := inp[ip..ip + |h + lits|];
    assert inp[ip..ip + |h|] == w[..|h|];
    assert inp[ip + |h|..ip + |h| + |lits|] == w[|h|..];
  }

  /** One token: the machine consumes exactly its bytes and applies it. */
  lemma {:induction false} StepToken(inp: seq<Byte>, ip: nat, ctx: Context, tok: Token, out: seq<Byte>, cap: nat)
    requires Valid(ctx, tok) && Fits(out, tok) && |Apply(out, tok)| <= cap
    requires ip + |Enc(tok)| < |inp| && inp[ip..ip + |Enc(tok)|] == Enc(tok)
    ensures Step(inp, ip, ctx, out, cap) == More(ip + |Enc(tok)|, Next(tok), Apply(out, tok))
  {
    hide ParseOp, Head, Copy, Need;
    var n := |tok.lits|;
    SplitToken(inp, ip, Head(tok), tok.lits);
    ParseToken(inp, ip, ctx, tok);
    if tok.Match? && n == 0 {
      assert Copy(out, tok.off, tok.len) + tok.lits == Copy(out, tok.off, tok.len);
    }
  }

  /** Every legal token stream is decoded to exactly what it means, consuming all input. */
  lemma {:induction false} DecodeTokens(inp: seq<Byte>, ip: nat, ctx: Context, toks: seq<Token>, out: seq<Byte>, cap: nat)
    requires Legal(ctx, toks) && Playable(out, toks) && |Play(out, toks)| <= cap
    requires AllWellFormed(toks) && ip <= |inp| && inp[ip..] == EncAll(toks) + EOF_MARK
    ensures Decode(inp, ip, ctx, out, cap) == Outcome(OK, Play(out, toks))
    decreases |toks|
  {
    hide ParseOp, Apply, Enc, Valid, Next;
    if toks == [] {
      assert inp[ip..] == EOF_MARK;
      ParseEof(inp, ip, ctx);
    } else {
      var e := Enc(toks[0]);
      SplitStream(inp, ip, toks);
      StepToken(inp, ip, ctx, toks[0], out, cap);
      DecodeTokens(inp, ip + |e|, Next(toks[0]), toks[1..], Apply(out, toks[0]), cap);
    }
  }

  lemma SplitStream(inp: seq<Byte>, ip: nat, toks: seq<Token>)
    requires toks != [] && AllWellFormed(toks) && ip <= |inp| && inp[ip..] == EncAll(toks) + EOF_MARK
    ensures var e := Enc(toks[0]);
            ip + |e| < |inp| && inp[ip..ip + |e|] == e && inp[ip + |e|..] == EncAll(toks[1..]) + EOF_MARK
  {
    hide Enc;
    SplitAt(inp, ip, Enc(toks[0]), EncAll(toks[1..]), EOF_MARK);
  }

  lemma SplitAt(inp: seq<Byte>, ip: nat, a: seq<Byte>, b: seq<Byte>, c: seq<Byte>)
    requires ip <= |inp| && inp[ip..] == (a + b) + c
    ensures ip + |a| + |b| + |c| == |inp| && inp[ip..ip + |a|] == a && inp[ip + |a|..] == b + c
  {
    assert inp[ip..] == a + (b + c);
    assert inp[ip..ip + |a|] == inp[ip..][..|a|];
    assert inp[ip + |a|..] == inp[ip..][|a|..];
  }

  lemma DecompressStream(toks: seq<Token>, data: seq<Byte>, cap: nat)
    requires Encodes(toks, data) && |data| <= cap
    ensures AllWellFormed(toks)
    ensures Decompress(EncAll(toks) + EOF_MARK, cap) == Outcome(OK, data)
  {
    LegalWellFormed(Start, toks);
    DecodeTokens(EncAll(toks) + EOF_MARK, 0, Start, toks, [], cap);
  }
}
