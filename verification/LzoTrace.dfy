/** What lzo1x_optimize looks for: the tokens of a stream as it was read, the places at which a short match can be turned
    into literals, and how many opcodes the decoder has to handle. */
module LzoTrace {
  import opened Bytes
  import opened LzoFormat
  import opened LzoDecode
  import opened LzoWriter
  import opened LzoParse

  // ---------- the number of opcodes ----------

  /** The rounds of the decoder up to its end. */
  function Rounds(inp: seq<Byte>, ip: nat, ctx: Context, out: seq<Byte>, cap: nat): (n: nat)
    ensures n >= 1
    decreases |inp| - ip
  {
    match Step(inp, ip, ctx, out, cap)
    case Done(_) => 1
    case More(ip', ctx', out') => 1 + Rounds(inp, ip', ctx', out', cap)
  }

  /** Every token takes one round. */
  lemma {:induction false} RoundsOf(inp: seq<Byte>, ip: nat, ctx: Context, toks: seq<Token>, out: seq<Byte>, cap: nat)
    requires Legal(ctx, toks) && Playable(out, toks) && |Play(out, toks)| <= cap && AllWellFormed(toks)
    requires ip + |EncAll(toks)| < |inp| && inp[ip..ip + |EncAll(toks)|] == EncAll(toks)
    ensures Rounds(inp, ip, ctx, out, cap) == |toks| + Rounds(inp, ip + |EncAll(toks)|, End(ctx, toks), Play(out, toks), cap)
    decreases |toks|
  {
    hide ParseOp, Apply, Enc, Valid, Next, Step;
    if toks != [] {
      var e, rest := Enc(toks[0]), EncAll(toks[1..]);
      assert EncAll(toks) == e + rest;
      SplitToken(inp, ip, e, rest);
      StepToken(inp, ip, ctx, toks[0], out, cap);
      RoundsOf(inp, ip + |e|, Next(toks[0]), toks[1..], Apply(out, toks[0]), cap);
    }
  }

  lemma RoundsAtEnd(inp: seq<Byte>, ip: nat, ctx: Context, out: seq<Byte>, cap: nat)
    requires ParseOp(inp, ip, ctx).Stop?
    ensures Rounds(inp, ip, ctx, out, cap) == 1
  {
    hide ParseOp;
  }

  // ---------- the stream as it was read ----------

  /** The bytes before ip are these tokens. */
  ghost predicate Read(orig: seq<Byte>, ip: nat, ctx: Context, before: seq<Token>) {
    ip <= |orig| && Legal(Start, before) && AllWellFormed(before) && orig[..ip] == EncAll(before) && ctx == End(Start, before)
  }

  lemma {:induction false} ReadOne(orig: seq<Byte>, ip: nat, ctx: Context, before: seq<Token>, tok: Token)
    requires Read(orig, ip, ctx, before) && Valid(ctx, tok) && WellFormed(tok)
    requires ip + |Enc(tok)| <= |orig| && orig[ip..ip + |Enc(tok)|] == Enc(tok)
    ensures Read(orig, ip + |Enc(tok)|, Next(tok), before + [tok])
  {
    hide Enc, Valid, Next, WellFormed, EncAll, Legal;
    LegalSnoc(before, tok);
    EncSnoc(before, tok);
    assert orig[..ip + |Enc(tok)|] == orig[..ip] + Enc(tok);
  }

  lemma {:induction false} ReadMatch(orig: seq<Byte>, ip: nat, ctx: Context, before: seq<Token>, tok: Token, next: nat)
    requires Read(orig, ip, ctx, before) && ctx != Start && ParseOp(orig, ip, ctx).CopyOp?
    requires var o := ParseOp(orig, ip, ctx); var t := orig[o.next - 2] % 4;
             && next == o.next + t <= |orig| && tok == Match(FormAt(orig[ip], ctx), o.len, o.off, orig[o.next..next])
    ensures WellFormed(tok) && |Enc(tok)| == next - ip
    ensures Read(orig, next, if tok.lits == [] then AfterMatch else AfterShort, before + [tok])
  {
    hide ParseOp, MatchHead, InRange, FormAt, Legal, EncAll, Allowed;
    MatchInverse(orig, ip, ctx);
    var o := ParseOp(orig, ip, ctx);
    assert orig[ip..next] == orig[ip..o.next] + orig[o.next..next];
    ReadOne(orig, ip, ctx, before, tok);
  }

  lemma {:induction false} ReadLiterals(orig: seq<Byte>, ip: nat, ctx: Context, before: seq<Token>, tok: Token)
    requires Read(orig, ip, ctx, before) && Valid(ctx, tok) && WellFormed(tok) && !tok.Match?
    requires ip + |Enc(tok)| <= |orig| && orig[ip..ip + |Enc(tok)|] == Enc(tok)
    ensures Read(orig, ip + |Enc(tok)|, if |tok.lits| < 4 then AfterShort else AfterRun, before + [tok])
  {
    hide Enc, EncAll, Legal, Valid;
    ReadOne(orig, ip, ctx, before, tok);
  }

  // ---------- where a match can be replaced ----------

  /** A match can become literals, depending on the token before it and on the opcode after it: a two-byte match between one
      literal and another match, or between up to three literals and a run that is short enough; a three-byte match of the
      two-byte form between two runs that are short enough together; and one of the three-byte forms between two matches, or
      between a match and a run that is short enough. */
  predicate CanGo(prev: Token, tok: Token, nb: Byte) {
    && !prev.First? && tok.Match? && tok.lits == []
    && var lit := |prev.lits|;
       match tok.form
       case M1 => (lit == 1 && nb >= 16) || (1 <= nb < 16 && lit + 2 + nb < 16)
       case M1Far => false
       case M2 => tok.len == 3 && lit > 3 && 1 <= nb < 16 && lit + 3 + nb < 16
       case _ => tok.len == 3 && ((lit == 0 && nb >= 16) || (lit <= 3 && 1 <= nb < 16 && lit + 3 + nb < 16))
  }

  ghost predicate Spot(orig: seq<Byte>, before: seq<Token>, i: nat)
    requires AllWellFormed(before)
  {
    1 <= i < |before| && |EncAll(before[..i + 1])| < |orig| && CanGo(before[i - 1], before[i], orig[|EncAll(before[..i + 1])|])
  }

  /** No match can go. */
  ghost predicate Plain(orig: seq<Byte>, before: seq<Token>)
    requires AllWellFormed(before)
  {
    forall i: nat :: !Spot(orig, before, i)
  }

  lemma {:induction false} PlainSnoc(orig: seq<Byte>, before: seq<Token>, tok: Token)
    requires AllWellFormed(before + [tok]) && AllWellFormed(before)
    ensures Plain(orig, before + [tok]) <==> Plain(orig, before) && !Spot(orig, before + [tok], |before|)
  {
    hide CanGo, EncAll;
    var all := before + [tok];
    forall i: nat | i < |before| ensures Spot(orig, all, i) <==> Spot(orig, before, i) {
      assert all[..i + 1] == before[..i + 1];
    }
  }

  lemma NotFirst(orig: seq<Byte>, before: seq<Token>, tok: Token)
    requires AllWellFormed(before + [tok]) && !tok.Match?
    ensures !Spot(orig, before + [tok], |before|)
  {
    hide EncAll;
  }

  lemma {:induction false} LastSpot(orig: seq<Byte>, before: seq<Token>, tok: Token, next: nat)
    requires AllWellFormed(before + [tok]) && before != [] && next < |orig| && next == |EncAll(before + [tok])|
    ensures Spot(orig, before + [tok], |before|) <==> CanGo(before[|before| - 1], tok, orig[next])
  {
    hide EncAll, CanGo;
    var all := before + [tok];
    assert all[..|before| + 1] == all;
  }

  /** Either nothing could be replaced so far, and nothing was, or something was, and there are fewer tokens now. */
  ghost predicate Traced(orig: seq<Byte>, ip: nat, ctx: Context, before: seq<Token>, done: seq<Token>) {
    && Read(orig, ip, ctx, before)
    && if Plain(orig, before) then done == before else |done| < |before|
  }

  lemma TracedStart(orig: seq<Byte>)
    ensures Traced(orig, 0, Start, [], [])
  {
  }

  /** A token that stays. */
  lemma {:induction false} TracedKeep(orig: seq<Byte>, ip: nat, ctx: Context, before: seq<Token>, done: seq<Token>, tok: Token, ip': nat, ctx': Context)
    requires Traced(orig, ip, ctx, before, done) && Read(orig, ip', ctx', before + [tok])
    requires done == before ==> !Spot(orig, before + [tok], |before|)
    ensures Traced(orig, ip', ctx', before + [tok], done + [tok])
  {
    hide Read, Spot;
    ReadWellFormed(orig, ip, ctx, before);
    ReadWellFormed(orig, ip', ctx', before + [tok]);
    PlainSnoc(orig, before, tok);
  }

  lemma ReadWellFormed(orig: seq<Byte>, ip: nat, ctx: Context, before: seq<Token>)
    requires Read(orig, ip, ctx, before)
    ensures AllWellFormed(before)
  {
  }

  /** A match that goes. */
  lemma {:induction false} TracedGo(orig: seq<Byte>, ip: nat, ctx: Context, before: seq<Token>, done: seq<Token>, tok: Token, ip': nat, ctx': Context, done': seq<Token>)
    requires Traced(orig, ip, ctx, before, done) && Read(orig, ip', ctx', before + [tok]) && |done'| <= |done|
    requires done == before ==> Spot(orig, before + [tok], |before|)
    ensures Traced(orig, ip', ctx', before + [tok], done') && !Plain(orig, before + [tok])
  {
    hide Read, Spot;
    ReadWellFormed(orig, ip, ctx, before);
    ReadWellFormed(orig, ip', ctx', before + [tok]);
    PlainSnoc(orig, before, tok);
  }

  /** A run that is joined to the literals before it. */
  lemma {:induction false} TracedJoin(orig: seq<Byte>, ip: nat, ctx: Context, before: seq<Token>, done: seq<Token>, tok: Token, ip': nat, ctx': Context, done': seq<Token>)
    requires Traced(orig, ip, ctx, before, done) && !Plain(orig, before) && Read(orig, ip', ctx', before + [tok]) && |done'| <= |done| + 1
    ensures Traced(orig, ip', ctx', before + [tok], done')
  {
    hide Read, Spot;
    ReadWellFormed(orig, ip, ctx, before);
    ReadWellFormed(orig, ip', ctx', before + [tok]);
    PlainSnoc(orig, before, tok);
  }
}
