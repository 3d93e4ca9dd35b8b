/** lzo1x_optimize: an in-place peephole pass over a compressed block.  Short matches between literals
    are turned into literals, which makes the block faster to decode; its length and its meaning stay. */
module LzoOptimize {
  import opened Bytes
  import opened LzoFormat
  import opened LzoDecode
  import opened LzoDecoder
  import opened LzoWriter
  import opened LzoParse
  import opened LzoTrace
  import opened LzoBounds

  // ---------- the stream as it was ----------

  lemma {:induction false} LiteralsOk(inp: seq<Byte>, ip: nat, ctx: Context, out: seq<Byte>, cap: nat)
    requires ParseOp(inp, ip, ctx).Literals? && Decode(inp, ip, ctx, out, cap).code == OK
    ensures var o := ParseOp(inp, ip, ctx);
            && o.next + o.n < |inp| && |out| + o.n <= cap
            && Decode(inp, ip, ctx, out, cap)
            == Decode(inp, o.next + o.n, if o.n < 4 then AfterShort else AfterRun, out + inp[o.next..o.next + o.n], cap)
            && (LeanFrom(inp, ip, ctx, out, cap) ==>
                  LeanFrom(inp, o.next + o.n, if o.n < 4 then AfterShort else AfterRun, out + inp[o.next..o.next + o.n], cap))
  {
    hide ParseOp;
  }

  lemma {:induction false} CopyOk(inp: seq<Byte>, ip: nat, ctx: Context, out: seq<Byte>, cap: nat)
    requires ParseOp(inp, ip, ctx).CopyOp? && Decode(inp, ip, ctx, out, cap).code == OK
    ensures var o := ParseOp(inp, ip, ctx); var t := inp[o.next - 2] % 4;
            && o.off <= |out| && |out| + o.len + t <= cap && o.next + t < |inp|
            && Decode(inp, ip, ctx, out, cap)
            == Decode(inp, o.next + t, if t == 0 then AfterMatch else AfterShort,
                      Copy(out, o.off, o.len) + inp[o.next..o.next + t], cap)
            && (LeanFrom(inp, ip, ctx, out, cap) ==>
                  LeanFrom(inp, o.next + t, if t == 0 then AfterMatch else AfterShort,
                           Copy(out, o.off, o.len) + inp[o.next..o.next + t], cap))
  {
    hide ParseOp, Copy;
    var o := ParseOp(inp, ip, ctx);
    var c := Copy(out, o.off, o.len);
    if inp[o.next - 2] % 4 == 0 {
      assert c + inp[o.next..o.next] == c;
      assert ParseOp(inp, o.next, AfterMatch).Bad? ==> Decode(inp, o.next, AfterMatch, c, cap).code != OK by { BadIsNotOk(inp, o.next, AfterMatch); }
      if o.next >= |inp| { PastEnd(inp, o.next); }
    }
  }

  lemma BadIsNotOk(inp: seq<Byte>, ip: nat, ctx: Context)
    ensures ParseOp(inp, ip, ctx).Bad? ==> ParseOp(inp, ip, ctx).code != OK
  {
    hide ReadExt;
  }

  lemma PastEnd(inp: seq<Byte>, ip: nat)
    requires ip >= |inp|
    ensures ParseOp(inp, ip, AfterMatch).Bad?
  {
  }

  // ---------- the stream as it is being rewritten ----------

  /** The bytes before ip are the tokens `done`, which mean `out`; the bytes from ip on are still the original ones. */
  ghost predicate Rewritten(a: seq<Byte>, orig: seq<Byte>, ip: nat, out: seq<Byte>, done: seq<Token>) {
    ip <= |a| == |orig| && a[ip..] == orig[ip..] && Wrote(out, |out|, a[..ip], done)
  }

  /** The reading context of the original stream is that of the rewritten one, except right after a match
      has been turned into trailing literals; then the next opcode is one that does not care. */
  ghost predicate SameContext(ctx: Context, done: seq<Token>, orig: seq<Byte>, ip: nat) {
    || ctx == End(Start, done)
    || (ctx == AfterMatch && End(Start, done) == AfterShort && ip < |orig| && orig[ip] >= 16)
  }

  /** litp is where the last token keeps its literal count, and lit is that count; -1 until there is one
      that may be changed. */
  ghost predicate LitPlace(litp: int, lit: nat, ip: nat, done: seq<Token>) {
    if litp < 0 then done == [] || (|done| == 1 && done[0].First?)
    else
      && done != [] && !done[|done| - 1].First? && WellFormed(done[|done| - 1])
      && lit == |done[|done| - 1].lits|
      && litp == (if done[|done| - 1].Match? then ip - lit - 2 else ip - |Enc(done[|done| - 1])|)
  }

  lemma {:induction false} AddToken(a: seq<Byte>, orig: seq<Byte>, ip: nat, out: seq<Byte>, done: seq<Token>, tok: Token)
    requires Rewritten(a, orig, ip, out, done) && Valid(End(Start, done), tok) && Fits(out, tok)
    requires ip + |Enc(tok)| <= |a| && a[ip..ip + |Enc(tok)|] == Enc(tok)
    ensures Rewritten(a, orig, ip + |Enc(tok)|, Apply(out, tok), done + [tok])
  {
    hide Enc, Valid, Apply;
    ValidIsWellFormed(End(Start, done), tok);
    var ip' := ip + |Enc(tok)|;
    assert a[ip'..] == a[ip..][|Enc(tok)|..] == orig[ip..][|Enc(tok)|..] == orig[ip'..];
    assert a[..ip'] == a[..ip] + Enc(tok);
    LegalSnoc(done, tok);
    EncSnoc(done, tok);
    PlaySnoc([], done, tok);
    assert out[..|out|] == out && Apply(out, tok)[..|Apply(out, tok)|] == Apply(out, tok);
  }

  /** What is written so far is decoded to `out`, whatever follows. */
  lemma {:induction false} DecodePrefix(inp: seq<Byte>, ip: nat, ctx: Context, toks: seq<Token>, out: seq<Byte>, cap: nat)
    requires Legal(ctx, toks) && Playable(out, toks) && |Play(out, toks)| <= cap && AllWellFormed(toks)
    requires ip + |EncAll(toks)| < |inp| && inp[ip..ip + |EncAll(toks)|] == EncAll(toks)
    ensures Decode(inp, ip, ctx, out, cap) == Decode(inp, ip + |EncAll(toks)|, End(ctx, toks), Play(out, toks), cap)
    decreases |toks|
  {
    hide ParseOp, Apply, Enc, Valid, Next, Step;
    if toks != [] {
      var e, rest := Enc(toks[0]), EncAll(toks[1..]);
      assert EncAll(toks) == e + rest;
      SplitToken(inp, ip, e, rest);
      StepToken(inp, ip, ctx, toks[0], out, cap);
      DecodePrefix(inp, ip + |e|, Next(toks[0]), toks[1..], Apply(out, toks[0]), cap);
      DecodeMore(inp, ip, ctx, out, cap);
    }
  }

  lemma DecodeMore(inp: seq<Byte>, ip: nat, ctx: Context, out: seq<Byte>, cap: nat)
    requires Step(inp, ip, ctx, out, cap).More?
    ensures var s := Step(inp, ip, ctx, out, cap); Decode(inp, ip, ctx, out, cap) == Decode(inp, s.ip, s.ctx, s.out, cap)
  {
    hide Step;
  }

  // ---------- the three kinds of rewriting, on bytes ----------

  /** (b & ~3) | n */
  function SetLow2(b: Byte, n: nat): (r: Byte)
    requires n < 4
  {
    b - b % 4 + n
  }

  function LastInit(done: seq<Token>): seq<Token>
    requires done != []
  {
    done[..|done| - 1]
  }

  lemma {:induction false} SplitLast(out: seq<Byte>, s: seq<Byte>, done: seq<Token>)
    requires Wrote(out, |out|, s, done) && done != []
    ensures var init, last := LastInit(done), done[|done| - 1];
            && AllWellFormed(init) && WellFormed(last) && Legal(Start, init) && Valid(End(Start, init), last)
            && s == EncAll(init) + Enc(last)
            && Playable([], init) && Fits(Play([], init), last) && Apply(Play([], init), last) == out
  {
    hide Enc, Valid, Apply;
    var init, last := LastInit(done), done[|done| - 1];
    assert done == init + [last];
    LegalSnoc(init, last);
    EncSnoc(init, last);
    PlayAppend([], init, [last]);
    PlaySnoc([], init, last);
    assert out[..|out|] == out;
  }

  /** Replace the last token by another one that is valid in its place. */
  lemma {:induction false} ReplaceLast(out: seq<Byte>, s: seq<Byte>, done: seq<Token>, tok: Token)
    requires Wrote(out, |out|, s, done) && done != [] && AllWellFormed(LastInit(done)) && WellFormed(tok)
    requires Valid(End(Start, LastInit(done)), tok) && Playable([], LastInit(done)) && Fits(Play([], LastInit(done)), tok)
    ensures var out' := Apply(Play([], LastInit(done)), tok);
            Wrote(out', |out'|, EncAll(LastInit(done)) + Enc(tok), LastInit(done) + [tok])
  {
    hide Enc, Valid, Apply;
    SplitLast(out, s, done);
    var init := LastInit(done);
    var out' := Apply(Play([], init), tok);
    LegalSnoc(init, tok);
    EncSnoc(init, tok);
    PlaySnoc([], init, tok);
    assert out'[..|out'|] == out';
  }

  /** More trailing literals for the last match: its count is set, and the new literals go at the end. */
  lemma {:induction false} JoinShort(out: seq<Byte>, s: seq<Byte>, done: seq<Token>, extra: seq<Byte>, litp: nat)
    requires Wrote(out, |out|, s, done) && done != [] && done[|done| - 1].Match?
    requires var n := |done[|done| - 1].lits|; n + |extra| == 3 && |s| == litp + n + 2
    ensures var last := done[|done| - 1];
            Wrote(out + extra, |out + extra|, s[litp := SetLow2(s[litp], 3)] + extra,
                  LastInit(done) + [last.(lits := last.lits + extra)])
  {
    hide Enc, Valid, Wrote, Apply, EncAll, Play, Playable, Legal, WellFormed, End;
    SplitLast(out, s, done);
    var init, last := LastInit(done), done[|done| - 1];
    var tok := last.(lits := last.lits + extra);
    TrailingValid(End(Start, init), last, last.lits + extra);
    ReplaceLast(out, s, done, tok);
    ResizeLits(EncAll(init), last, last.lits + extra);
    SameHeadMeaning(Play([], init), last, extra);
    assert s[litp := SetLow2(s[litp], 3)] + extra == EncAll(init) + Enc(tok);
  }

  /** A match with other trailing literals: the same bytes up to its count, and then the new literals. */
  lemma {:induction false} ResizeLits(pre: seq<Byte>, last: Token, lits: seq<Byte>)
    requires last.Match? && WellFormed(last) && |lits| <= 3
    ensures var s := pre + Enc(last); var litp := |s| - |last.lits| - 2;
            && 0 <= litp && s[litp + 2..] == last.lits && s[litp] % 4 == |last.lits|
            && pre + Enc(last.(lits := lits)) == s[..litp] + [SetLow2(s[litp], |lits|), s[litp + 1]] + lits
  {
    hide Prefix, Low, High;
    var x, lo, hi := Prefix(last.form, last.len, last.off), Low(last.form, last.len, last.off), High(last.form, last.len, last.off);
    var s := pre + Enc(last);
    var litp := |pre + x|;
    assert Enc(last) == x + [lo + |last.lits|, hi] + last.lits;
    assert s[..litp] == pre + x && s[litp] == lo + |last.lits| && s[litp + 1] == hi && s[litp + 2..] == last.lits;
    var tok := last.(lits := lits);
    assert Enc(tok) == x + [lo + |lits|, hi] + lits;
  }

  lemma SameHeadMeaning(out: seq<Byte>, last: Token, extra: seq<Byte>)
    requires last.Match? && Fits(out, last)
    ensures Apply(out, last.(lits := last.lits + extra)) == Apply(out, last) + extra
  {
    hide Copy;
    assert Copy(out, last.off, last.len) + (last.lits + extra) == Copy(out, last.off, last.len) + last.lits + extra;
  }

  /** The trailing literals of the last match, and more, become a run of their own. */
  lemma {:induction false} JoinRun(out: seq<Byte>, s: seq<Byte>, done: seq<Token>, extra: seq<Byte>, litp: nat)
    requires Wrote(out, |out|, s, done) && done != [] && done[|done| - 1].Match?
    requires var n := |done[|done| - 1].lits|; |s| == litp + n + 2 && 4 <= n + |extra| <= 18
    ensures var last := done[|done| - 1]; var lits := last.lits + extra;
            var head: seq<Byte> := [SetLow2(s[litp], 0), s[litp + 1], |lits| - 3];
            Wrote(out + extra, |out + extra|, s[..litp] + head + lits,
                  LastInit(done) + [last.(lits := [])] + [Run(lits)])
  {
    hide Enc, Valid, Wrote, Apply, EncAll, Play, Playable, Legal, WellFormed, End;
    SplitLast(out, s, done);
    var init, last := LastInit(done), done[|done| - 1];
    var tok, lits := last.(lits := []), last.lits + extra;
    TrailingValid(End(Start, init), last, []);
    ReplaceLast(out, s, done, tok);
    ResizeLits(EncAll(init), last, []);
    SameHeadMeaning(Play([], init), tok, lits);
    SameHeadMeaning(Play([], init), last, extra);
    SameHeadMeaning(Play([], init), tok, last.lits);
    var out0 := Apply(Play([], init), tok);
    assert [] + last.lits == last.lits && [] + lits == lits;
    assert out == out0 + last.lits && out + extra == out0 + lits;
    var s0 := EncAll(init) + Enc(tok);
    var two: seq<Byte> := [SetLow2(s[litp], 0), s[litp + 1]];
    assert s0 == s[..litp] + two + [] == s[..litp] + two;
    AppendRun(out0, s0, init + [tok], lits);
    PushOne(s[..litp], two[0], two[1], |lits| - 3);
  }

  lemma PushOne(x: seq<Byte>, a: Byte, b: Byte, c: Byte)
    ensures x + [a, b] + [c] == x + [a, b, c]
  {
  }

  lemma {:induction false} AppendRun(out: seq<Byte>, s: seq<Byte>, done: seq<Token>, lits: seq<Byte>)
    requires Wrote(out, |out|, s, done) && RunMayFollow(done) && 4 <= |lits| <= 18
    ensures Wrote(out + lits, |out + lits|, s + [|lits| - 3] + lits, done + [Run(lits)])
  {
    hide Enc, Apply;
    var tok := Run(lits);
    ShortRun(out, lits);
    LegalSnoc(done, tok);
    EncSnoc(done, tok);
    PlaySnoc([], done, tok);
    assert out[..|out|] == out && (out + lits)[..|out + lits|] == out + lits;
    assert s + [|lits| - 3] + lits == s + Enc(tok);
  }

  /** More literals for the last run: its length byte changes. */
  lemma {:induction false} JoinLong(out: seq<Byte>, s: seq<Byte>, done: seq<Token>, extra: seq<Byte>, litp: nat)
    requires Wrote(out, |out|, s, done) && done != [] && done[|done| - 1].Run?
    requires var n := |done[|done| - 1].lits|; 4 <= n && n + |extra| <= 18 && |s| == litp + n + 1
    ensures var last := done[|done| - 1]; var lits := last.lits + extra;
            Wrote(out + extra, |out + extra|, s[litp := |lits| - 3] + extra, LastInit(done) + [Run(lits)])
  {
    hide Valid, Wrote, Enc, Apply, EncAll, Play, Playable, Legal, End;
    SplitLast(out, s, done);
    var init, last := LastInit(done), done[|done| - 1];
    var lits := last.lits + extra;
    assert Valid(End(Start, init), Run(lits)) by { RunValid(End(Start, init), last, lits); }
    ReplaceLast(out, s, done, Run(lits));
    ShortRun(Play([], init), last.lits);
    ShortRun(Play([], init), lits);
    assert s[litp := |lits| - 3] + extra == EncAll(init) + Enc(Run(lits));
    assert Play([], init) + lits == out + extra;
  }

  lemma ShortRun(out: seq<Byte>, lits: seq<Byte>)
    requires 4 <= |lits| <= 18
    ensures Enc(Run(lits)) == [|lits| - 3] + lits && Apply(out, Run(lits)) == out + lits
  {
  }

  lemma RunValid(ctx: Context, last: Token, lits: seq<Byte>)
    requires last.Run? && Valid(ctx, last) && |lits| >= 4
    ensures Valid(ctx, Run(lits))
  {
  }

  // ---------- the pass ----------

  /** The bytes a match copies. */
  function Copied(out: seq<Byte>, off: nat, k: nat): (r: seq<Byte>)
    requires 1 <= off <= |out|
    ensures |r| == k
    ensures Copy(out, off, k) == out + r
  {
    Copy(out, off, k)[|out|..]
  }

  lemma CopyOnce(out: seq<Byte>, off: nat, k: nat)
    requires 1 <= off <= |out|
    ensures Copy(out, off, k) == if k == 0 then out else Copy(out + [out[|out| - off]], off, k - 1)
  {
  }

  lemma CopiedBytes(out: seq<Byte>, off: nat)
    requires 1 <= off <= |out|
    ensures var m := |out| - off;
            && Copied(out, off, 2) == [out[m], if off == 1 then out[m] else out[m + 1]]
            && Copied(out, off, 3) == [out[m], if off == 1 then out[m] else out[m + 1],
                                       if off == 1 then out[m] else if off == 2 then out[m] else out[m + 2]]
  {
    hide Copy;
    var m := |out| - off;
    var o1 := out + [out[m]];
    var o2 := o1 + [o1[m + 1]];
    var o3 := o2 + [o2[m + 2]];
    assert Copy(out, off, 3) == o3 by {
      CopyOnce(out, off, 3);
      CopyOnce(o1, off, 2);
      CopyOnce(o2, off, 1);
      CopyOnce(o3, off, 0);
    }
    assert Copy(out, off, 2) == o2 by {
      CopyOnce(out, off, 2);
      CopyOnce(o1, off, 1);
      CopyOnce(o2, off, 0);
    }
  }

  method Copy2(a: array<Byte>, at: nat, out: seq<Byte>, off: nat)
    requires at + 2 <= a.Length && 1 <= off <= |out|
    modifies a
    ensures [a[at], a[at + 1]] == Copied(out, off, 2)
    ensures forall k :: 0 <= k < a.Length && k != at && k != at + 1 ==> a[k] == old(a[k])
  {
    hide Copied;
    CopiedBytes(out, off);
    var m := |out| - off;
    a[at] := out[m];
    if off == 1 { a[at + 1] := out[m]; } else { a[at + 1] := out[m + 1]; }
  }

  method Copy3(a: array<Byte>, at: nat, out: seq<Byte>, off: nat)
    requires at + 3 <= a.Length && 1 <= off <= |out|
    modifies a
    ensures [a[at], a[at + 1], a[at + 2]] == Copied(out, off, 3)
    ensures forall k :: 0 <= k < a.Length && !(at <= k < at + 3) ==> a[k] == old(a[k])
  {
    hide Copied;
    CopiedBytes(out, off);
    var m := |out| - off;
    a[at] := out[m];
    if off == 1 {
      a[at + 1], a[at + 2] := out[m], out[m];
    } else if off == 2 {
      a[at + 1], a[at + 2] := out[m + 1], out[m];
    } else {
      a[at + 1], a[at + 2] := out[m + 1], out[m + 2];
    }
  }

  method CopyOver(a: array<Byte>, at: nat, out: seq<Byte>, off: nat, k: nat)
    requires 2 <= k <= 3 && at + k <= a.Length && 1 <= off <= |out|
    modifies a
    ensures a[at..at + k] == Copied(out, off, k)
    ensures forall i :: 0 <= i < a.Length && !(at <= i < at + k) ==> a[i] == old(a[i])
  {
    hide Copied;
    if k == 2 {
      Copy2(a, at, out, off);
      assert a[at..at + k] == [a[at], a[at + 1]];
    } else {
      Copy3(a, at, out, off);
      assert a[at..at + k] == [a[at], a[at + 1], a[at + 2]];
    }
  }

  /** memmove(litp + 1, litp, lit) */
  method ShiftOne(a: array<Byte>, from: nat, n: nat)
    requires from + n < a.Length
    modifies a
    ensures a[from + 1..from + 1 + n] == old(a[from..from + n])
    ensures forall i :: 0 <= i < a.Length && !(from < i <= from + n) ==> a[i] == old(a[i])
  {
    var i := n;
    while i > 0
      invariant 0 <= i <= n
      invariant forall k :: from + i < k <= from + n ==> a[k] == old(a[k - 1])
      invariant forall k :: 0 <= k < a.Length && !(from + i < k <= from + n) ==> a[k] == old(a[k])
    {
      a[from + i] := a[from + i - 1];
      i := i - 1;
    }
  }

  /** The state of the pass at an opcode: `r` is what the original stream decodes to. */
  ghost predicate At(a: seq<Byte>, orig: seq<Byte>, ip: nat, ctx: Context, out: seq<Byte>, done: seq<Token>,
                     litp: int, lit: nat, cap: nat, r: Outcome) {
    && Rewritten(a, orig, ip, out, done) && SameContext(ctx, done, orig, ip) && LitPlace(litp, lit, ip, done)
    && Decode(orig, ip, ctx, out, cap) == r && r.code == OK && Trim(orig, ip, ctx, out, done, cap)
  }

  /** If the original block is lean, so is what is left of it, and so are the tokens written so far. */
  ghost predicate Trim(orig: seq<Byte>, ip: nat, ctx: Context, out: seq<Byte>, done: seq<Token>, cap: nat) {
    LeanFrom(orig, 0, Start, [], cap) ==>
      LeanFrom(orig, ip, ctx, out, cap) && AllWellFormed(done) && LeanTokens(done, |orig|, cap)
  }

  /** The last token, or the last token after a change of those before it, ends where the original stream is. */
  lemma {:induction false} TrimTo(a: seq<Byte>, orig: seq<Byte>, ip: nat, ctx: Context, out: seq<Byte>, done: seq<Token>, cap: nat,
                                  pre: seq<Token>, tok: Token, ip': nat, ctx': Context, out': seq<Byte>)
    requires Trim(orig, ip, ctx, out, done, cap) && (LeanFrom(orig, ip, ctx, out, cap) ==> LeanFrom(orig, ip', ctx', out', cap))
    requires ip' <= |a| && Wrote(out', |out'|, a[..ip'], pre + [tok]) && AllWellFormed(pre)
    requires AllWellFormed(done) && LeanTokens(done, |orig|, cap) ==> LeanTokens(pre, |orig|, cap)
    ensures Trim(orig, ip', ctx', out', pre + [tok], cap)
  {
    hide Wrote, Lean, Step, LeanTokens;
    if LeanFrom(orig, 0, Start, [], cap) {
      WroteSizes(out', a[..ip'], pre + [tok]);
      LeanSnoc(pre, tok, |orig|, cap);
    }
  }

  lemma {:induction false} WroteSizes(out: seq<Byte>, s: seq<Byte>, done: seq<Token>)
    requires Wrote(out, |out|, s, done)
    ensures AllWellFormed(done) && |EncAll(done)| == |s| && TotalGain(done) == |out|
  {
    PlayLength([], done);
    assert out[..|out|] == out;
  }

  lemma {:induction false} LeanSnoc(done: seq<Token>, tok: Token, size: nat, cap: nat)
    requires AllWellFormed(done + [tok]) && AllWellFormed(done) && LeanTokens(done, size, cap)
    requires Lean(size, cap, |EncAll(done + [tok])|, TotalGain(done + [tok]))
    ensures LeanTokens(done + [tok], size, cap)
  {
    hide Lean, EncAll, TotalGain;
    var all := done + [tok];
    forall k: nat | k <= |all| ensures Lean(size, cap, |EncAll(all[..k])|, TotalGain(all[..k])) {
      if k <= |done| { assert all[..k] == done[..k]; } else { assert all[..k] == all; }
    }
  }

  lemma {:induction false} LeanInit(done: seq<Token>, size: nat, cap: nat)
    requires AllWellFormed(done) && done != [] && LeanTokens(done, size, cap)
    ensures AllWellFormed(LastInit(done)) && LeanTokens(LastInit(done), size, cap)
  {
    hide Lean, EncAll, TotalGain;
    forall k: nat | k <= |done| - 1 ensures Lean(size, cap, |EncAll(LastInit(done)[..k])|, TotalGain(LastInit(done)[..k])) {
      assert LastInit(done)[..k] == done[..k];
    }
  }

  /** A match without its trailing literals ends as far before as there were literals. */
  lemma {:induction false} LeanWithout(done: seq<Token>, size: nat, cap: nat)
    requires AllWellFormed(done) && done != [] && done[|done| - 1].Match? && LeanTokens(done, size, cap)
    ensures var pre := LastInit(done) + [done[|done| - 1].(lits := [])]; AllWellFormed(pre) && LeanTokens(pre, size, cap)
  {
    hide Lean, EncAll, TotalGain, LeanTokens, Enc;
    var init, last := LastInit(done), done[|done| - 1];
    var bare := last.(lits := []);
    LeanInit(done, size, cap);
    assert done == init + [last];
    EncSnoc(init, last);
    EncSnoc(init, bare);
    GainSnoc(init, last);
    GainSnoc(init, bare);
    BareSize(last);
    LeanAt(done, size, cap, |done|);
    assert done[..|done|] == done;
    LeanBefore(size, cap, |EncAll(done)|, TotalGain(done), |last.lits|);
    LeanSnoc(init, bare, size, cap);
  }

  lemma GainSnoc(toks: seq<Token>, tok: Token)
    ensures TotalGain(toks + [tok]) == TotalGain(toks) + Gain(tok)
  {
    GainAppend(toks, [tok]);
    assert [tok][1..] == [];
  }

  lemma BareSize(tok: Token)
    requires tok.Match? && WellFormed(tok)
    ensures WellFormed(tok.(lits := [])) && |Enc(tok)| == |Enc(tok.(lits := []))| + |tok.lits| && Gain(tok) == Gain(tok.(lits := [])) + |tok.lits|
  {
    hide Prefix, Low, High, InRange;
  }

  /** A match of `len` bytes, coded in `len` bytes and without trailing literals, stands at ip. */
  ghost predicate ShortMatch(orig: seq<Byte>, ip: nat, ctx: Context, len: nat, off: nat, next: nat) {
    && ParseOp(orig, ip, ctx) == CopyOp(len, off, next) && 2 <= len <= 3 && ip + 2 <= next <= ip + len
    && next < |orig| && orig[next - 2] % 4 == 0
  }

  lemma {:induction false} SkipCopy(orig: seq<Byte>, ip: nat, ctx: Context, out: seq<Byte>, cap: nat, len: nat, off: nat, next: nat)
    requires ShortMatch(orig, ip, ctx, len, off, next) && Decode(orig, ip, ctx, out, cap).code == OK
    ensures off >= 1 && off <= |out| && Decode(orig, ip, ctx, out, cap) == Decode(orig, next, AfterMatch, out + Copied(out, off, len), cap)
    ensures LeanFrom(orig, ip, ctx, out, cap) ==> LeanFrom(orig, next, AfterMatch, out + Copied(out, off, len), cap)
  {
    hide ParseOp, Decode, Copy, Copied, LeanFrom;
    CopyOk(orig, ip, ctx, out, cap);
    CopyOpOff(orig, ip, ctx);
    assert Copy(out, off, len) + orig[next..next] == out + Copied(out, off, len);
  }

  lemma CopyOpOff(inp: seq<Byte>, ip: nat, ctx: Context)
    ensures ParseOp(inp, ip, ctx).CopyOp? ==> ParseOp(inp, ip, ctx).off >= 1
  {
    hide LenField;
  }

  /** M1-a and M3-a: the match becomes trailing literals of the match before it. */
  method RewriteShort(a: array<Byte>, ip: nat, next: nat, litp: nat, lit: nat, out: seq<Byte>, len: nat, off: nat,
                      ghost orig: seq<Byte>, ghost ctx: Context, ghost done: seq<Token>, ghost cap: nat, ghost r: Outcome)
    returns (out': seq<Byte>, ghost done': seq<Token>)
    requires At(a[..], orig, ip, ctx, out, done, litp, lit, cap, r) && ShortMatch(orig, ip, ctx, len, off, next)
    requires lit + len == 3 && next == ip + len && orig[next] >= 16
    modifies a
    ensures At(a[..], orig, next, AfterMatch, out', done', litp, 3, cap, r)
    ensures |done'| == |done| && 1 <= off <= |out| && out' == out + Copied(out, off, len)
  {
    hide Decode, ParseOp, Copied, Enc, Copy, WellFormed, Wrote, LeanFrom, LeanTokens, Trim;
    SkipCopy(orig, ip, ctx, out, cap, len, off, next);
    ghost var s := a[..ip];
    ghost var last := done[|done| - 1];
    ghost var extra := Copied(out, off, len);
    assert last.Match? by { ShortIsMatch(last); }
    JoinShort(out, s, done, extra, litp);
    a[litp] := a[litp] - a[litp] % 4 + 3;
    CopyOver(a, ip, out, off, len);
    out' := out + Copied(out, off, len);
    done' := LastInit(done) + [last.(lits := last.lits + extra)];
    assert a[..next] == s[litp := SetLow2(s[litp], 3)] + extra;
    assert a[..][..next] == a[..next] && a[..][next..] == orig[next..] by { SuffixSame(orig, old(a[..]), a[..], ip, next); }
    assert WellFormed(done'[|done'| - 1]) by { LastWellFormed(out', a[..next], done'); }
    TrimLast(a[..], orig, ip, ctx, out, done, cap, s, last.(lits := last.lits + extra), next, AfterMatch, out');
  }

  lemma {:induction false} TrimLast(a: seq<Byte>, orig: seq<Byte>, ip: nat, ctx: Context, out: seq<Byte>, done: seq<Token>, cap: nat,
                                    s: seq<Byte>, tok: Token, ip': nat, ctx': Context, out': seq<Byte>)
    requires Trim(orig, ip, ctx, out, done, cap) && (LeanFrom(orig, ip, ctx, out, cap) ==> LeanFrom(orig, ip', ctx', out', cap))
    requires done != [] && Wrote(out, |out|, s, done)
    requires ip' <= |a| && Wrote(out', |out'|, a[..ip'], LastInit(done) + [tok])
    ensures Trim(orig, ip', ctx', out', LastInit(done) + [tok], cap)
  {
    hide Wrote, LeanFrom, LeanTokens, Trim, Enc, EncAll;
    WroteSizes(out, s, done);
    if LeanTokens(done, |orig|, cap) { LeanInit(done, |orig|, cap); }
    TrimTo(a, orig, ip, ctx, out, done, cap, LastInit(done), tok, ip', ctx', out');
  }

  lemma ShortIsMatch(tok: Token)
    requires WellFormed(tok) && !tok.First? && |tok.lits| <= 3
    ensures tok.Match?
  {
  }

  lemma LastWellFormed(out: seq<Byte>, s: seq<Byte>, done: seq<Token>)
    requires Wrote(out, |out|, s, done) && done != []
    ensures WellFormed(done[|done| - 1])
  {
  }

  lemma SuffixSame(orig: seq<Byte>, a: seq<Byte>, a': seq<Byte>, ip: nat, next: nat)
    requires ip <= next <= |a| == |a'| == |orig| && a[ip..] == orig[ip..]
    requires forall k :: next <= k < |a| ==> a'[k] == a[k]
    ensures a'[next..] == orig[next..]
  {
    forall k | next <= k < |a| ensures a'[k] == orig[k] {
      assert a[k] == a[ip..][k - ip] == orig[ip..][k - ip];
    }
  }

  /** A short literal run of nb + 3 bytes stands at ip. */
  lemma {:induction false} SkipRun(orig: seq<Byte>, ip: nat, out: seq<Byte>, cap: nat)
    requires ip < |orig| && 1 <= orig[ip] < 16 && Decode(orig, ip, AfterMatch, out, cap).code == OK
    ensures var n := orig[ip] + 3; var end := ip + 1 + n;
            && end < |orig| && Decode(orig, ip, AfterMatch, out, cap) == Decode(orig, end, AfterRun, out + orig[ip + 1..end], cap)
            && (LeanFrom(orig, ip, AfterMatch, out, cap) ==> LeanFrom(orig, end, AfterRun, out + orig[ip + 1..end], cap))
  {
    hide Decode, LeanFrom;
    LiteralsOk(orig, ip, AfterMatch, out, cap);
  }

  /** The byte moves of M1-b and M3-b: the count is cleared, the copied bytes lie over the end of the match and
      the run opcode, the old literals have moved up by one, and the new run opcode is before them. */
  ghost predicate Arranged(b: seq<Byte>, a: seq<Byte>, litp: nat, lit: nat, next: nat, copied: seq<Byte>, op: Byte) {
    && |a| == |b| && litp + 2 + lit + |copied| == next < |a|
    && (forall k :: 0 <= k < litp ==> a[k] == b[k])
    && a[litp] == SetLow2(b[litp], 0) && a[litp + 1] == b[litp + 1] && a[litp + 2] == op
    && a[litp + 3..litp + 3 + lit] == b[litp + 2..litp + 2 + lit]
    && a[next + 1 - |copied|..next + 1] == copied
    && (forall k :: next + 1 <= k < |a| ==> a[k] == b[k])
  }

  method ArrangeRun(a: array<Byte>, litp: nat, lit: nat, next: nat, out: seq<Byte>, off: nat, len: nat, op: Byte)
    requires litp + 2 + lit + len == next < a.Length && 2 <= len <= 3 && 1 <= off <= |out|
    modifies a
    ensures Arranged(old(a[..]), a[..], litp, lit, next, Copied(out, off, len), op)
  {
    hide Copied;
    a[litp] := a[litp] - a[litp] % 4;
    CopyOver(a, next + 1 - len, out, off, len);
    ghost var mid := a[..];
    ShiftOne(a, litp + 2, lit);
    a[litp + 2] := op;
    assert a[next + 1 - len..next + 1] == mid[next + 1 - len..next + 1];
    assert mid[litp + 2..litp + 2 + lit] == old(a[litp + 2..litp + 2 + lit]);
  }

  /** M1-b and M3-b: the match, the literals before it and the run after it become one run. */
  method RewriteRun(a: array<Byte>, ip: nat, next: nat, litp0: nat, lit0: nat, out: seq<Byte>, len: nat, off: nat,
                    ghost orig: seq<Byte>, ghost ctx: Context, ghost done: seq<Token>, ghost cap: nat, ghost r: Outcome)
    returns (out': seq<Byte>, ip': nat, litp: nat, lit: nat, ghost done': seq<Token>)
    requires At(a[..], orig, ip, ctx, out, done, litp0, lit0, cap, r) && ShortMatch(orig, ip, ctx, len, off, next)
    requires lit0 <= 3 && next == ip + len && 1 <= orig[next] < 16 && lit0 + len + orig[next] < 16
    modifies a
    ensures At(a[..], orig, ip', AfterRun, out', done', litp, lit, cap, r) && ip < ip'
    ensures |done'| == |done| + 1 && ip' == next + 4 + orig[next] <= |orig|
    ensures 1 <= off <= |out| && out' == out + Copied(out, off, len) + orig[next + 1..ip']
  {
    hide Decode, ParseOp, Copied, Enc, Copy, WellFormed, Wrote, End, Arranged, LeanFrom, LeanTokens, Trim;
    SkipCopy(orig, ip, ctx, out, cap, len, off, next);
    SkipRun(orig, next, out + Copied(out, off, len), cap);
    assert done[|done| - 1].Match? by { ShortIsMatch(done[|done| - 1]); }
    SuffixOf(a[..], orig, ip, out, done);
    var t: int := a[next];
    ip', litp, lit := next + 1 + (t + 3), litp0 + 2, lit0 + len + t + 3;
    ghost var before := a[..];
    ArrangeRun(a, litp0, lit0, next, out, off, len, lit - 3);
    done' := RunJoined(before, a[..], orig, ip, out, done, litp0, lit0, next, Copied(out, off, len), ip');
    out' := AppendBytes(out + Copied(out, off, len), a[..], next + 1, t + 3);
    TrimRun(a[..], before[..ip], orig, ip, ctx, out, done, cap, done', ip', out');
  }

  lemma {:induction false} TrimRun(a: seq<Byte>, s: seq<Byte>, orig: seq<Byte>, ip: nat, ctx: Context, out: seq<Byte>, done: seq<Token>,
                                   cap: nat, done': seq<Token>, ip': nat, out': seq<Byte>)
    requires Trim(orig, ip, ctx, out, done, cap) && (LeanFrom(orig, ip, ctx, out, cap) ==> LeanFrom(orig, ip', AfterRun, out', cap))
    requires done != [] && done[|done| - 1].Match? && Wrote(out, |out|, s, done)
    requires ip' <= |a| && Wrote(out', |out'|, a[..ip'], done') && done' != []
    requires LastInit(done') == LastInit(done) + [done[|done| - 1].(lits := [])]
    ensures Trim(orig, ip', AfterRun, out', done', cap)
  {
    hide Wrote, LeanFrom, LeanTokens, Trim, Enc, EncAll;
    WroteSizes(out, s, done);
    WroteSizes(out', a[..ip'], done');
    if LeanTokens(done, |orig|, cap) { LeanWithout(done, |orig|, cap); }
    assert done' == LastInit(done') + [done'[|done'| - 1]];
    TrimTo(a, orig, ip, ctx, out, done, cap, LastInit(done'), done'[|done'| - 1], ip', AfterRun, out');
  }

  /** After these moves the prefix is again the encoding of tokens, now ending in the joined run. */
  lemma {:induction false} RunJoined(b: seq<Byte>, a: seq<Byte>, orig: seq<Byte>, ip: nat, out: seq<Byte>, done: seq<Token>,
                                     litp: nat, lit: nat, next: nat, copied: seq<Byte>, end: nat) returns (done': seq<Token>)
    requires Rewritten(b, orig, ip, out, done) && LitPlace(litp, lit, ip, done) && done[|done| - 1].Match?
    requires next == ip + |copied| && 2 <= |copied| && next + 1 <= end <= |a| && 4 <= lit + |copied| + (end - next - 1) <= 18
    requires Arranged(b, a, litp, lit, next, copied, lit + |copied| + (end - next - 1) - 3)
    ensures out + copied + a[next + 1..end] == out + (copied + orig[next + 1..end])
    ensures Rewritten(a, orig, end, out + copied + a[next + 1..end], done') && End(Start, done') == AfterRun
    ensures LitPlace(litp + 2, lit + |copied| + (end - next - 1), end, done')
    ensures a[next + 1..end] == orig[next + 1..end]
    ensures done' != [] && LastInit(done') == LastInit(done) + [done[|done| - 1].(lits := [])]
  {
    hide Enc, WellFormed, Wrote, End;
    var s, last := b[..ip], done[|done| - 1];
    var tail := orig[next + 1..end];
    JoinRun(out, s, done, copied + tail, litp);
    LastLits(out, s, done, litp);
    SuffixSame(orig, b, a, ip, next + 1);
    TailOf(a, orig, next + 1, end);
    ArrangedBytes(a, b, s, orig, last.lits, copied, litp, ip, next, end, lit + |copied| + |tail| - 3);
    assert out + copied + tail == out + (copied + tail);
    done' := LastInit(done) + [last.(lits := [])] + [Run(last.lits + (copied + tail))];
    AfterJoin(a, orig, next + 1, end, out + (copied + tail), done');
  }

  lemma ArrangedBytes(a: seq<Byte>, before: seq<Byte>, s: seq<Byte>, orig: seq<Byte>, lits: seq<Byte>, copied: seq<Byte>,
                      litp: nat, ip: nat, next: nat, end: nat, op: Byte)
    requires ip == litp + 2 + |lits| && next == ip + |copied| && next < end <= |a| == |orig| == |before| && s == before[..ip]
    requires s[litp + 2..] == lits
    requires forall k :: 0 <= k < litp ==> a[k] == before[k]
    requires a[litp] == SetLow2(before[litp], 0) && a[litp + 1] == before[litp + 1] && a[litp + 2] == op
    requires a[litp + 3..litp + 3 + |lits|] == before[litp + 2..litp + 2 + |lits|] && a[ip + 1..next + 1] == copied
    requires a[next + 1..] == orig[next + 1..]
    ensures a[..end] == s[..litp] + [SetLow2(s[litp], 0), s[litp + 1], op] + (lits + (copied + orig[next + 1..end]))
  {
    assert before[litp + 2..litp + 2 + |lits|] == s[litp + 2..];
    TailOf(a, orig, next + 1, end);
    FrontOf(a, before, s, litp, op);
    Glue(a, end, s[..litp] + [SetLow2(s[litp], 0), s[litp + 1], op], lits, copied, orig[next + 1..end]);
  }

  lemma FrontOf(a: seq<Byte>, before: seq<Byte>, s: seq<Byte>, litp: nat, op: Byte)
    requires litp + 2 <= |s| <= |before| && litp + 3 <= |a| && s == before[..|s|]
    requires forall k :: 0 <= k < litp ==> a[k] == before[k]
    requires a[litp] == SetLow2(before[litp], 0) && a[litp + 1] == before[litp + 1] && a[litp + 2] == op
    ensures a[..litp + 3] == s[..litp] + [SetLow2(s[litp], 0), s[litp + 1], op]
  {
  }

  lemma {:induction false} LastLits(out: seq<Byte>, s: seq<Byte>, done: seq<Token>, litp: nat)
    requires Wrote(out, |out|, s, done) && done != [] && done[|done| - 1].Match? && |s| == litp + |done[|done| - 1].lits| + 2
    ensures s[litp + 2..] == done[|done| - 1].lits
  {
    hide Wrote, Enc;
    SplitLast(out, s, done);
    ResizeLits(EncAll(LastInit(done)), done[|done| - 1], []);
  }

  lemma TailOf(a: seq<Byte>, orig: seq<Byte>, from: nat, end: nat)
    requires from <= end <= |a| == |orig| && a[from..] == orig[from..]
    ensures a[from..end] == orig[from..end]
  {
    assert a[from..end] == a[from..][..end - from];
    assert orig[from..end] == orig[from..][..end - from];
  }

  lemma {:induction false} AfterJoin(a: seq<Byte>, orig: seq<Byte>, from: nat, ip: nat, out: seq<Byte>, done: seq<Token>)
    requires from <= ip <= |a| == |orig| && a[from..] == orig[from..] && Wrote(out, |out|, a[..ip], done)
    requires done != [] && done[|done| - 1].Run? && 4 <= |done[|done| - 1].lits| <= 18
    ensures Rewritten(a, orig, ip, out, done) && End(Start, done) == AfterRun
    ensures LitPlace(ip - |done[|done| - 1].lits| - 1, |done[|done| - 1].lits|, ip, done)
  {
    hide Wrote, Enc;
    assert a[ip..] == a[from..][ip - from..] == orig[from..][ip - from..] == orig[ip..];
    ShortRun(out, done[|done| - 1].lits);
    SplitLast(out, a[..ip], done);
  }

  method ArrangeLong(a: array<Byte>, litp: nat, at: nat, out: seq<Byte>, off: nat, op: Byte)
    requires litp < at && at + 3 <= a.Length && 1 <= off <= |out|
    modifies a
    ensures a[litp] == op && a[at..at + 3] == Copied(out, off, 3)
    ensures forall k :: 0 <= k < a.Length && k != litp && !(at <= k < at + 3) ==> a[k] == old(a[k])
  {
    hide Copied;
    CopyOver(a, at, out, off, 3);
    ghost var mid := a[..];
    a[litp] := op;
    assert a[at..at + 3] == mid[at..at + 3];
  }

  /** M2: the match between two literal runs becomes literals, and the three become one run. */
  method RewriteLong(a: array<Byte>, ip: nat, next: nat, litp: nat, lit0: nat, out: seq<Byte>, off: nat,
                     ghost orig: seq<Byte>, ghost ctx: Context, ghost done: seq<Token>, ghost cap: nat, ghost r: Outcome)
    returns (out': seq<Byte>, ip': nat, lit: nat, ghost done': seq<Token>)
    requires At(a[..], orig, ip, ctx, out, done, litp, lit0, cap, r) && ShortMatch(orig, ip, ctx, 3, off, next)
    requires lit0 > 3 && next == ip + 2 && 1 <= orig[next] < 16 && lit0 + 3 + orig[next] < 16
    modifies a
    ensures At(a[..], orig, ip', AfterRun, out', done', litp, lit, cap, r) && ip < ip'
    ensures |done'| == |done| && ip' == next + 4 + orig[next] <= |orig|
    ensures 1 <= off <= |out| && out' == out + Copied(out, off, 3) + orig[next + 1..ip']
  {
    hide Decode, ParseOp, Copied, Enc, Copy, WellFormed, Wrote, End, LeanFrom, LeanTokens, Trim;
    SkipCopy(orig, ip, ctx, out, cap, 3, off, next);
    SkipRun(orig, next, out + Copied(out, off, 3), cap);
    assert done[|done| - 1].Run? by { LongIsRun(done[|done| - 1]); }
    SuffixOf(a[..], orig, ip, out, done);
    var t: int := a[next];
    ip', lit := next + 1 + (t + 3), lit0 + 3 + t + 3;
    ghost var before := a[..];
    RunPlace(before[..ip], out, done, litp, lit0, ip);
    ArrangeLong(a, litp, next - 2, out, off, lit - 3);
    done' := LongJoined(before, a[..], orig, ip, out, done, litp, lit0, Copied(out, off, 3), ip');
    out' := AppendBytes(out + Copied(out, off, 3), a[..], next + 1, t + 3);
    TrimLast(a[..], orig, ip, ctx, out, done, cap, before[..ip], done'[|done'| - 1], ip', AfterRun, out');
  }

  lemma RunPlace(s: seq<Byte>, out: seq<Byte>, done: seq<Token>, litp: nat, lit: nat, ip: nat)
    requires LitPlace(litp, lit, ip, done) && done[|done| - 1].Run? && Wrote(out, |out|, s, done) && lit <= 18
    ensures ip == litp + lit + 1
  {
    hide Wrote;
    ShortRun(out, done[|done| - 1].lits);
  }

  /** After these moves the prefix is again the encoding of tokens, with a longer run at its end. */
  lemma {:induction false} LongJoined(b: seq<Byte>, a: seq<Byte>, orig: seq<Byte>, ip: nat, out: seq<Byte>, done: seq<Token>,
                                      litp: nat, lit: nat, copied: seq<Byte>, end: nat) returns (done': seq<Token>)
    requires Rewritten(b, orig, ip, out, done) && LitPlace(litp, lit, ip, done) && done[|done| - 1].Run?
    requires |copied| == 3 && lit > 3 && ip == litp + lit + 1 && ip + 3 <= end <= |a| == |b| && lit + (end - ip) <= 18
    requires a[litp] == lit + (end - ip) - 3 && a[ip..ip + 3] == copied
    requires forall k :: 0 <= k < |a| && k != litp && !(ip <= k < ip + 3) ==> a[k] == b[k]
    ensures out + copied + a[ip + 3..end] == out + (copied + orig[ip + 3..end]) && a[ip + 3..end] == orig[ip + 3..end]
    ensures Rewritten(a, orig, end, out + copied + a[ip + 3..end], done') && End(Start, done') == AfterRun
    ensures LitPlace(litp, lit + (end - ip), end, done') && done' != [] && done' == LastInit(done) + [done'[|done'| - 1]]
  {
    hide Enc, WellFormed, Wrote, End;
    var s, last := b[..ip], done[|done| - 1];
    var tail := orig[ip + 3..end];
    var extra := copied + tail;
    JoinLong(out, s, done, extra, litp);
    SuffixSame(orig, b, a, ip, ip + 3);
    LongBytes(a, s, orig, copied, litp, ip, end, lit + (end - ip) - 3);
    TailOf(a, orig, ip + 3, end);
    assert out + copied + tail == out + extra;
    done' := LastInit(done) + [Run(last.lits + extra)];
    AfterJoin(a, orig, ip + 3, end, out + extra, done');
  }

  lemma LongIsRun(tok: Token)
    requires WellFormed(tok) && !tok.First? && |tok.lits| > 3
    ensures tok.Run?
  {
  }

  lemma LongBytes(a: seq<Byte>, s: seq<Byte>, orig: seq<Byte>, copied: seq<Byte>, litp: nat, ip: nat, end: nat, op: Byte)
    requires |s| == ip && |copied| == 3 && litp < ip && ip + 3 <= end <= |a| == |orig|
    requires forall k :: 0 <= k < ip && k != litp ==> a[k] == s[k]
    requires a[litp] == op && a[ip..ip + 3] == copied && a[ip + 3..] == orig[ip + 3..]
    ensures a[..end] == s[litp := op] + (copied + orig[ip + 3..end])
  {
    assert a[..ip] == s[litp := op];
    TailOf(a, orig, ip + 3, end);
    ThreeParts(a, ip, ip + 3, end);
  }

  lemma ThreeParts(a: seq<Byte>, i: nat, j: nat, k: nat)
    requires i <= j <= k <= |a|
    ensures a[..k] == a[..i] + (a[i..j] + a[j..k])
  {
  }

  // ---------- tokens that stay ----------

  /** The original bytes from ip on can be read off the array. */
  lemma SuffixBytes(a: seq<Byte>, orig: seq<Byte>, ip: nat)
    requires ip <= |a| == |orig| && a[ip..] == orig[ip..]
    ensures forall k :: ip <= k < |a| ==> a[k] == orig[k]
    ensures forall i, j :: ip <= i <= j <= |a| ==> a[i..j] == orig[i..j]
  {
    forall k | ip <= k < |a| ensures a[k] == orig[k] {
      assert a[k] == a[ip..][k - ip] && orig[k] == orig[ip..][k - ip];
    }
  }

  /** Literals are a token, and its bytes are the ones read. */
  lemma {:induction false} LiteralToken(inp: seq<Byte>, ip: nat, ctx: Context) returns (tok: Token)
    requires var o := ParseOp(inp, ip, ctx); o.Literals? && o.next + o.n <= |inp|
    ensures var o := ParseOp(inp, ip, ctx);
            && !tok.Match? && Valid(ctx, tok) && (tok.First? <==> ctx == Start && inp[ip] > 17)
            && tok.lits == inp[o.next..o.next + o.n] && ip + |Enc(tok)| == o.next + o.n && inp[ip..o.next + o.n] == Enc(tok)
    ensures ctx == Start || (ctx == AfterMatch && inp[ip] < 16)
  {
    hide LenField, RunHead;
    var o := ParseOp(inp, ip, ctx);
    var lits := inp[o.next..o.next + o.n];
    if ctx == Start && inp[ip] > 17 {
      tok := First(lits);
      assert inp[ip..o.next] == [17 + o.n];
    } else {
      RunInverse(inp, ip, ctx);
      tok := Run(lits);
    }
    assert inp[ip..o.next + o.n] == inp[ip..o.next] + lits;
  }

  lemma {:induction false} KeepLiterals(a: seq<Byte>, orig: seq<Byte>, ip: nat, ctx: Context, out: seq<Byte>, done: seq<Token>,
                                        litp: int, lit: nat, cap: nat, r: Outcome) returns (done': seq<Token>, tok: Token)
    requires At(a, orig, ip, ctx, out, done, litp, lit, cap, r) && ParseOp(orig, ip, ctx).Literals?
    ensures done' == done + [tok] && !tok.Match? && Valid(ctx, tok) && WellFormed(tok) && |tok.lits| == ParseOp(orig, ip, ctx).n
    ensures var end := ip + |Enc(tok)|; end == ParseOp(orig, ip, ctx).next + |tok.lits| <= |orig| && orig[ip..end] == Enc(tok)
    ensures var o := ParseOp(orig, ip, ctx); var first := ctx == Start && orig[ip] > 17;
            && o.next + o.n < |a|
            && At(a, orig, o.next + o.n, if o.n < 4 then AfterShort else AfterRun, out + a[o.next..o.next + o.n], done',
                  if first then litp else ip, if first then lit else o.n, cap, r)
  {
    hide ParseOp, Decode, Wrote, Enc, LeanFrom, LeanTokens, Trim;
    var o := ParseOp(orig, ip, ctx);
    LiteralsOk(orig, ip, ctx, out, cap);
    SuffixBytes(a, orig, ip);
    LiteralNext(orig, ip, ctx);
    tok := LiteralToken(orig, ip, ctx);
    ValidIsWellFormed(ctx, tok);
    assert a[ip..o.next + o.n] == Enc(tok);
    AddToken(a, orig, ip, out, done, tok);
    done' := done + [tok];
    WroteSizes(out, a[..ip], done);
    TrimTo(a, orig, ip, ctx, out, done, cap, done, tok, o.next + o.n, if o.n < 4 then AfterShort else AfterRun, out + a[o.next..o.next + o.n]);
    if ctx == Start { StartIsEmpty(done); }
  }

  lemma LiteralNext(inp: seq<Byte>, ip: nat, ctx: Context)
    ensures ParseOp(inp, ip, ctx).Literals? ==> ip < ParseOp(inp, ip, ctx).next
  {
    hide LenField;
  }

  lemma StartIsEmpty(done: seq<Token>)
    requires End(Start, done) == Start
    ensures done == []
  {
  }

  /** A match is a token, and its bytes are the ones read. */
  lemma {:induction false} MatchToken(inp: seq<Byte>, ip: nat, ctx: Context) returns (tok: Token)
    requires var o := ParseOp(inp, ip, ctx); ctx != Start && o.CopyOp? && o.next + inp[o.next - 2] % 4 <= |inp|
    ensures var o := ParseOp(inp, ip, ctx); var t := inp[o.next - 2] % 4;
            && InRange(FormAt(inp[ip], ctx), o.len, o.off)
            && tok == Match(FormAt(inp[ip], ctx), o.len, o.off, inp[o.next..o.next + t]) && Valid(ctx, tok)
            && ip + |Enc(tok)| == o.next + t && inp[ip..o.next + t] == Enc(tok)
  {
    hide ParseOp, MatchHead, InRange, FormAt;
    MatchInverse(inp, ip, ctx);
    var o := ParseOp(inp, ip, ctx);
    var t := inp[o.next - 2] % 4;
    tok := Match(FormAt(inp[ip], ctx), o.len, o.off, inp[o.next..o.next + t]);
    assert inp[ip..o.next + t] == inp[ip..o.next] + inp[o.next..o.next + t];
  }

  lemma {:induction false} KeepMatch(a: seq<Byte>, orig: seq<Byte>, ip: nat, ctx: Context, out: seq<Byte>, done: seq<Token>,
                                     litp: int, lit: nat, cap: nat, r: Outcome, len: nat, off: nat, next: nat) returns (done': seq<Token>)
    requires At(a, orig, ip, ctx, out, done, litp, lit, cap, r) && ParseOp(orig, ip, ctx) == CopyOp(len, off, next) && 2 <= next <= |orig|
    ensures var t := orig[next - 2] % 4;
            && next + t < |a| && 1 <= off <= |out|
            && At(a, orig, next + t, if t == 0 then AfterMatch else AfterShort,
                  Copy(out, off, len) + a[next..next + t], done', next - 2, t, cap, r)
    ensures ctx != Start && ip < |orig| && next + orig[next - 2] % 4 <= |orig|
    ensures done' == done + [Match(FormAt(orig[ip], ctx), len, off, orig[next..next + orig[next - 2] % 4])]
  {
    hide ParseOp, Decode, Wrote, Enc, Copy, InRange, FormAt, Allowed, LeanFrom, LeanTokens, Trim;
    var o := ParseOp(orig, ip, ctx);
    var t := orig[o.next - 2] % 4;
    CopyOk(orig, ip, ctx, out, cap);
    SuffixBytes(a, orig, ip);
    CopyOpOff(orig, ip, ctx);
    if ctx == Start {
      StartIsEmpty(done);
      assert out == [] by { EmptyOut(out, a[..ip], done); }
    }
    var tok := MatchToken(orig, ip, ctx);
    assert Valid(End(Start, done), tok) by { AnyContext(orig, ip, ctx, done, tok); }
    assert a[ip..o.next + t] == Enc(tok);
    AddToken(a, orig, ip, out, done, tok);
    done' := done + [tok];
    WroteSizes(out, a[..ip], done);
    TrimTo(a, orig, ip, ctx, out, done, cap, done, tok, o.next + t, if t == 0 then AfterMatch else AfterShort,
           Copy(out, o.off, o.len) + a[o.next..o.next + t]);
  }

  lemma EmptyOut(out: seq<Byte>, s: seq<Byte>, done: seq<Token>)
    requires Wrote(out, |out|, s, done) && done == []
    ensures out == []
  {
    assert out[..|out|] == out;
  }

  lemma AnyContext(orig: seq<Byte>, ip: nat, ctx: Context, done: seq<Token>, tok: Token)
    requires SameContext(ctx, done, orig, ip) && ip < |orig| && tok.Match? && Valid(ctx, tok) && tok.form == FormAt(orig[ip], ctx)
    ensures Valid(End(Start, done), tok)
  {
  }

  lemma {:induction false} OpcodeSize(inp: seq<Byte>, ip: nat, ctx: Context)
    requires ParseOp(inp, ip, ctx).CopyOp? && ctx != Start
    ensures var o := ParseOp(inp, ip, ctx);
            && ip + 2 <= o.next <= |inp| && o.len >= 2
            && (inp[ip] >= 64 || inp[ip] < 16 ==> o.next == ip + 2)
            && (inp[ip] < 16 && ctx == AfterShort ==> o.len == 2)
            && (16 <= inp[ip] < 64 && o.len == 3 ==> o.next == ip + 3)
  {
    hide ReadExt;
  }

  lemma ShortContext(ctx: Context, done: seq<Token>, orig: seq<Byte>, ip: nat, litp: int, lit: nat)
    requires SameContext(ctx, done, orig, ip) && LitPlace(litp, lit, ip, done) && litp >= 0
    ensures ctx == AfterShort ==> 1 <= lit <= 3
  {
  }

  // ---------- what the pass replaces ----------

  /** The original stream takes n rounds up to ip. */
  ghost predicate Counted(orig: seq<Byte>, ip: nat, ctx: Context, out: seq<Byte>, cap: nat, n: nat) {
    Rounds(orig, 0, Start, [], cap) == n + Rounds(orig, ip, ctx, out, cap)
  }

  lemma CountLiterals(orig: seq<Byte>, ip: nat, ctx: Context, out: seq<Byte>, cap: nat, n: nat)
    requires Counted(orig, ip, ctx, out, cap, n) && ParseOp(orig, ip, ctx).Literals? && Decode(orig, ip, ctx, out, cap).code == OK
    ensures var o := ParseOp(orig, ip, ctx);
            o.next + o.n < |orig| && Counted(orig, o.next + o.n, if o.n < 4 then AfterShort else AfterRun, out + orig[o.next..o.next + o.n], cap, n + 1)
  {
    hide ParseOp;
  }

  lemma {:induction false} CountCopy(orig: seq<Byte>, ip: nat, ctx: Context, out: seq<Byte>, cap: nat, n: nat)
    requires Counted(orig, ip, ctx, out, cap, n) && ParseOp(orig, ip, ctx).CopyOp? && Decode(orig, ip, ctx, out, cap).code == OK
    ensures var o := ParseOp(orig, ip, ctx); var t := orig[o.next - 2] % 4;
            && 1 <= o.off <= |out| && o.next + t < |orig|
            && Counted(orig, o.next + t, if t == 0 then AfterMatch else AfterShort, Copy(out, o.off, o.len) + orig[o.next..o.next + t], cap, n + 1)
  {
    hide ParseOp, Copy;
    CopyOk(orig, ip, ctx, out, cap);
    CopyOpOff(orig, ip, ctx);
    var o := ParseOp(orig, ip, ctx);
    var c := Copy(out, o.off, o.len);
    if orig[o.next - 2] % 4 == 0 { assert c + orig[o.next..o.next] == c; }
  }

  /** A match that is replaced by trailing literals. */
  lemma {:induction false} TraceShort(orig: seq<Byte>, ip: nat, ctx: Context, out: seq<Byte>, before: seq<Token>, done: seq<Token>,
                                      done': seq<Token>, len: nat, off: nat, next: nat, cap: nat)
    requires Traced(orig, ip, ctx, before, done) && Counted(orig, ip, ctx, out, cap, |before|)
    requires ShortMatch(orig, ip, ctx, len, off, next) && ctx != Start && Decode(orig, ip, ctx, out, cap).code == OK && |done'| <= |done|
    requires var tok := Match(FormAt(orig[ip], ctx), len, off, []);
             AllWellFormed(before + [tok]) && (done == before ==> Spot(orig, before + [tok], |before|))
    ensures var tok := Match(FormAt(orig[ip], ctx), len, off, []);
            && Traced(orig, next, AfterMatch, before + [tok], done') && !Plain(orig, before + [tok])
            && 1 <= off <= |out| && Counted(orig, next, AfterMatch, out + Copied(out, off, len), cap, |before| + 1)
  {
    hide ParseOp, Decode, Copy, Copied, Traced, Plain, Spot, Counted, Rounds, FormAt;
    var tok := Match(FormAt(orig[ip], ctx), len, off, []);
    CountCopy(orig, ip, ctx, out, cap, |before|);
    assert Copy(out, off, len) + orig[next..next] == out + Copied(out, off, len);
    TracedRead(orig, ip, ctx, before, done);
    assert orig[next..next] == [];
    ReadMatch(orig, ip, ctx, before, tok, next);
    TracedGo(orig, ip, ctx, before, done, tok, next, AfterMatch, done');
  }

  lemma TracedRead(orig: seq<Byte>, ip: nat, ctx: Context, before: seq<Token>, done: seq<Token>)
    requires Traced(orig, ip, ctx, before, done)
    ensures Read(orig, ip, ctx, before) && AllWellFormed(before)
  {
  }

  /** A run that is joined to what was before the match. */
  lemma {:induction false} TraceRun(orig: seq<Byte>, ip: nat, out: seq<Byte>, before: seq<Token>, done: seq<Token>, done': seq<Token>, cap: nat)
    requires Traced(orig, ip, AfterMatch, before, done) && AllWellFormed(before) && !Plain(orig, before) && Counted(orig, ip, AfterMatch, out, cap, |before|)
    requires ip < |orig| && 1 <= orig[ip] < 16 && Decode(orig, ip, AfterMatch, out, cap).code == OK && |done'| <= |done| + 1
    ensures var end := ip + 4 + orig[ip];
            && end < |orig| && Traced(orig, end, AfterRun, before + [Run(orig[ip + 1..end])], done')
            && Counted(orig, end, AfterRun, out + orig[ip + 1..end], cap, |before| + 1)
  {
    hide Decode, Traced, Plain, Spot, Counted, Rounds;
    var n: nat := orig[ip] + 3;
    var end := ip + 1 + n;
    assert ParseOp(orig, ip, AfterMatch) == Literals(n, ip + 1);
    CountLiterals(orig, ip, AfterMatch, out, cap, |before|);
    hide ParseOp;
    var lits := orig[ip + 1..end];
    ShortRun(out, lits);
    assert orig[ip..end] == [n - 3] + lits;
    TracedRead(orig, ip, AfterMatch, before, done);
    ReadLiterals(orig, ip, AfterMatch, before, Run(lits));
    TracedJoin(orig, ip, AfterMatch, before, done, Run(lits), end, AfterRun, done');
  }

  lemma {:induction false} TraceBoth(orig: seq<Byte>, ip: nat, ctx: Context, out: seq<Byte>, before: seq<Token>, done: seq<Token>,
                                     done': seq<Token>, len: nat, off: nat, next: nat, cap: nat) returns (before': seq<Token>)
    requires Traced(orig, ip, ctx, before, done) && Counted(orig, ip, ctx, out, cap, |before|) && 1 <= off <= |out|
    requires ShortMatch(orig, ip, ctx, len, off, next) && ctx != Start && Decode(orig, ip, ctx, out, cap).code == OK && |done'| <= |done| + 1
    requires 1 <= orig[next] < 16
    requires var tok := Match(FormAt(orig[ip], ctx), len, off, []);
             AllWellFormed(before + [tok]) && (done == before ==> Spot(orig, before + [tok], |before|))
    ensures var end := next + 4 + orig[next];
            && end < |orig| && Traced(orig, end, AfterRun, before', done')
            && Counted(orig, end, AfterRun, out + Copied(out, off, len) + orig[next + 1..end], cap, |before'|)
  {
    hide ParseOp, Decode, Copied, Traced, Plain, Spot, Counted, FormAt;
    var tok := Match(FormAt(orig[ip], ctx), len, off, []);
    var out1 := out + Copied(out, off, len);
    TraceShort(orig, ip, ctx, out, before, done, done, len, off, next, cap);
    SkipCopy(orig, ip, ctx, out, cap, len, off, next);
    TraceRun(orig, next, out1, before + [tok], done, done', cap);
    before' := before + [tok] + [Run(orig[next + 1..next + 4 + orig[next]])];
  }

  /** A match that stays. */
  lemma {:induction false} TraceKeep(orig: seq<Byte>, ip: nat, ctx: Context, out: seq<Byte>, before: seq<Token>, done: seq<Token>,
                                     len: nat, off: nat, next: nat, cap: nat, tok: Token)
    requires Traced(orig, ip, ctx, before, done) && Counted(orig, ip, ctx, out, cap, |before|)
    requires ParseOp(orig, ip, ctx) == CopyOp(len, off, next) && ctx != Start && 2 <= next <= |orig| && ip < |orig|
    requires next + orig[next - 2] % 4 <= |orig| && Decode(orig, ip, ctx, out, cap).code == OK
    requires tok == Match(FormAt(orig[ip], ctx), len, off, orig[next..next + orig[next - 2] % 4])
    requires AllWellFormed(before + [tok]) && (done == before ==> !Spot(orig, before + [tok], |before|))
    ensures var t := orig[next - 2] % 4; var ctx' := if t == 0 then AfterMatch else AfterShort;
            && Traced(orig, next + t, ctx', before + [tok], done + [tok])
            && 1 <= off <= |out| && Counted(orig, next + t, ctx', Copy(out, off, len) + orig[next..next + t], cap, |before| + 1)
  {
    hide ParseOp, Decode, Copy, Traced, Plain, Spot, Counted, Rounds, FormAt, Read, AllWellFormed, WellFormed, Enc;
    CountCopy(orig, ip, ctx, out, cap, |before|);
    TracedRead(orig, ip, ctx, before, done);
    var t := orig[next - 2] % 4;
    ReadMatch(orig, ip, ctx, before, tok, next + t);
    TracedKeep(orig, ip, ctx, before, done, tok, next + t, if t == 0 then AfterMatch else AfterShort);
  }

  /** The tests of the pass are what says that a match can go. */
  lemma {:induction false} Decision(orig: seq<Byte>, ip: nat, ctx: Context, before: seq<Token>, done: seq<Token>, litp: int, lit: nat,
                                    len: nat, off: nat, next: nat, tok: Token)
    requires Traced(orig, ip, ctx, before, done) && LitPlace(litp, lit, ip, done) && ip < |orig| && ctx != Start
    requires ParseOp(orig, ip, ctx) == CopyOp(len, off, next) && 2 <= next && next + orig[next - 2] % 4 < |orig|
    requires tok == Match(FormAt(orig[ip], ctx), len, off, orig[next..next + orig[next - 2] % 4])
    ensures AllWellFormed(before + [tok])
    ensures var t, nb := orig[ip], orig[next];
            done == before ==>
              (Spot(orig, before + [tok], |before|) <==>
                 litp >= 0 && orig[next - 2] % 4 == 0
                 && ((t < 16 && ctx == AfterShort && ((lit == 1 && nb >= 16) || (1 <= nb < 16 && lit + 2 + nb < 16)))
                     || (t >= 64 && len == 3 && lit > 3 && 1 <= nb < 16 && lit + 3 + nb < 16)
                     || (16 <= t < 64 && len == 3 && ((lit == 0 && nb >= 16) || (lit <= 3 && 1 <= nb < 16 && lit + 3 + nb < 16)))))
  {
    hide ParseOp, Plain, EncAll, Legal, Spot, Enc, Valid, Next;
    var t := orig[next - 2] % 4;
    var all := before + [tok];
    ReadMatch(orig, ip, ctx, before, tok, next + t);
    ReadWellFormed(orig, next + t, if tok.lits == [] then AfterMatch else AfterShort, all);
    assert |EncAll(all)| == next + t by { assert orig[..next + t] == EncAll(all); }
    if before != [] { LastSpot(orig, before, tok, next + t); }
  }

  /** A match in the middle of the stream: one of the five rewrites, or none. */
  method OptimizeMatch(a: array<Byte>, ip: nat, ctx: Context, len: nat, off: nat, next: nat, litp: int, lit: nat, out: seq<Byte>,
                       ghost orig: seq<Byte>, ghost done: seq<Token>, ghost cap: nat, ghost r: Outcome, ghost before: seq<Token>)
    returns (ip': nat, ctx': Context, out': seq<Byte>, litp': int, lit': nat, ghost done': seq<Token>, ghost before': seq<Token>)
    requires At(a[..], orig, ip, ctx, out, done, litp, lit, cap, r) && ParseOp(orig, ip, ctx) == CopyOp(len, off, next)
    requires Traced(orig, ip, ctx, before, done) && Counted(orig, ip, ctx, out, cap, |before|)
    modifies a
    ensures ip < ip' && At(a[..], orig, ip', ctx', out', done', litp', lit', cap, r)
    ensures Traced(orig, ip', ctx', before', done') && Counted(orig, ip', ctx', out', cap, |before'|)
  {
    hide ParseOp, Decode, Rewritten, Copy, Copied, LitPlace, SameContext, Trim, Traced, Counted, Spot, Plain, FormAt, AllWellFormed;
    assert ctx != Start && ip < |orig| by { NotAtStart(a[..], orig, ip, ctx, out, done, litp, lit, cap, r); }
    OpcodeSize(orig, ip, ctx);
    done' := KeepMatch(a[..], orig, ip, ctx, out, done, litp, lit, cap, r, len, off, next);
    SuffixOf(a[..], orig, ip, out, done);
    var t, nl, nb: int := a[ip], a[next - 2] % 4, a[next];
    ghost var tok := Match(FormAt(orig[ip], ctx), len, off, orig[next..next + nl]);
    Decision(orig, ip, ctx, before, done, litp, lit, len, off, next, tok);
    before' := before + [tok];
    if litp >= 0 && nl == 0 && 2 <= len <= 3 {
      ShortContext(ctx, done, orig, ip, litp, lit);
      if t < 16 && ctx == AfterShort {
        if lit == 1 && nb >= 16 {
          out', done' := RewriteShort(a, ip, next, litp, lit, out, len, off, orig, ctx, done, cap, r);
          TraceShort(orig, ip, ctx, out, before, done, done', len, off, next, cap);
          return next, AfterMatch, out', litp, 3, done', before';
        } else if 1 <= nb < 16 && lit + 2 + nb < 16 {
          out', ip', litp', lit', done' := RewriteRun(a, ip, next, litp, lit, out, len, off, orig, ctx, done, cap, r);
          before' := TraceBoth(orig, ip, ctx, out, before, done, done', len, off, next, cap);
          return ip', AfterRun, out', litp', lit', done', before';
        }
      } else if t >= 64 {
        if len == 3 && lit > 3 && 1 <= nb < 16 && lit + 3 + nb < 16 {
          out', ip', lit', done' := RewriteLong(a, ip, next, litp, lit, out, off, orig, ctx, done, cap, r);
          before' := TraceBoth(orig, ip, ctx, out, before, done, done', len, off, next, cap);
          return ip', AfterRun, out', litp, lit', done', before';
        }
      } else if t >= 16 && len == 3 {
        if lit == 0 && nb >= 16 {
          out', done' := RewriteShort(a, ip, next, litp, lit, out, len, off, orig, ctx, done, cap, r);
          TraceShort(orig, ip, ctx, out, before, done, done', len, off, next, cap);
          return next, AfterMatch, out', litp, 3, done', before';
        } else if lit <= 3 && 1 <= nb < 16 && lit + 3 + nb < 16 {
          out', ip', litp', lit', done' := RewriteRun(a, ip, next, litp, lit, out, len, off, orig, ctx, done, cap, r);
          before' := TraceBoth(orig, ip, ctx, out, before, done, done', len, off, next, cap);
          return ip', AfterRun, out', litp', lit', done', before';
        }
      }
    }
    TraceKeep(orig, ip, ctx, out, before, done, len, off, next, cap, tok);
    assert a[..][next..next + nl] == orig[next..next + nl];
    out' := CopyMatch(out, off, len);
    out' := AppendBytes(out', a[..], next, nl);
    ip', ctx', litp', lit' := next + nl, if nl == 0 then AfterMatch else AfterShort, next - 2, nl;
  }

  /** do *op++ = *m_pos++; while (--t > 0) */
  method CopyMatch(out: seq<Byte>, off: nat, len: nat) returns (out': seq<Byte>)
    requires 1 <= off <= |out|
    ensures out' == Copy(out, off, len)
  {
    out' := out;
    for i := 0 to len
      invariant |out'| == |out| + i
      invariant Copy(out', off, len - i) == Copy(out, off, len)
    {
      out' := out' + [out'[|out'| - off]];
    }
  }

  lemma NotAtStart(a: seq<Byte>, orig: seq<Byte>, ip: nat, ctx: Context, out: seq<Byte>, done: seq<Token>,
                   litp: int, lit: nat, cap: nat, r: Outcome)
    requires At(a, orig, ip, ctx, out, done, litp, lit, cap, r) && ParseOp(orig, ip, ctx).CopyOp?
    ensures ctx != Start && ip < |orig|
  {
    hide Decode, Wrote, LenField, ReadExt;
    CopyOk(orig, ip, ctx, out, cap);
    if ctx == Start {
      StartIsEmpty(done);
      EmptyOut(out, a[..ip], done);
      CopyOpOff(orig, ip, ctx);
    }
  }

  lemma SuffixOf(a: seq<Byte>, orig: seq<Byte>, ip: nat, out: seq<Byte>, done: seq<Token>)
    requires Rewritten(a, orig, ip, out, done)
    ensures |a| == |orig| && forall k :: ip <= k < |a| ==> a[k] == orig[k]
  {
    hide Wrote;
    SuffixBytes(a, orig, ip);
  }

  /** At the end marker, the rewritten stream decodes to the same bytes as the original one. */
  lemma {:induction false} AtEnd(a: seq<Byte>, orig: seq<Byte>, ip: nat, ctx: Context, out: seq<Byte>, done: seq<Token>,
                                 litp: int, lit: nat, cap: nat, r: Outcome)
    requires At(a, orig, ip, ctx, out, done, litp, lit, cap, r) && ParseOp(orig, ip, ctx).Stop? && |r.out| <= cap
    ensures r == Outcome(OK, out) && ParseOp(orig, ip, ctx).next == |orig| && Decompress(a, cap) == r
    ensures LeanFrom(orig, 0, Start, [], cap) ==> LeanFrom(a, 0, Start, [], cap)
  {
    hide ParseOp, Enc, Apply, Valid, LeanTokens, LeanFrom, Trim;
    assert r.out == out;
    StopAnywhere(a, orig, ip, ctx, done, out);
    assert out[..|out|] == out;
    DecodePrefix(a, 0, Start, done, [], cap);
    TrimEnd(a, orig, ip, ctx, done, out, cap);
  }

  lemma {:induction false} TrimEnd(a: seq<Byte>, orig: seq<Byte>, ip: nat, ctx: Context, done: seq<Token>, out: seq<Byte>, cap: nat)
    requires Rewritten(a, orig, ip, out, done) && Trim(orig, ip, ctx, out, done, cap) && |out| <= cap && ip < |a|
    requires ParseOp(a, ip, End(Start, done)).Stop?
    ensures LeanFrom(orig, 0, Start, [], cap) ==> LeanFrom(a, 0, Start, [], cap)
  {
    hide ParseOp, LeanTokens, LeanFrom;
    WroteSizes(out, a[..ip], done);
    assert done[..0] == [] && done[0..] == done && a[..ip] == EncAll(done);
    if LeanFrom(orig, 0, Start, [], cap) { LeanPlayed(a, done, 0, [], cap); }
  }

  lemma {:induction false} StopAnywhere(a: seq<Byte>, orig: seq<Byte>, ip: nat, ctx: Context, done: seq<Token>, out: seq<Byte>)
    requires Rewritten(a, orig, ip, out, done) && SameContext(ctx, done, orig, ip) && ParseOp(orig, ip, ctx).Stop?
    ensures ip < |a| && ParseOp(a, ip, End(Start, done)) == ParseOp(orig, ip, ctx)
  {
    hide ReadExt, Wrote;
    SuffixBytes(a, orig, ip);
    ReadExtSame(a, orig, ip + 1, 7);
  }

  lemma {:induction false} ReadExtSame(a: seq<Byte>, b: seq<Byte>, ip: nat, acc: nat)
    requires ip <= |a| == |b| && forall k :: ip <= k < |a| ==> a[k] == b[k]
    ensures ReadExt(a, ip, acc) == ReadExt(b, ip, acc)
    decreases |a| - ip
  {
    if ip < |a| { ReadExtSame(a, b, ip + 1, acc + 255); }
  }

  /** The whole pass: for every block that decodes, the rewritten block has the same length and decodes to
      the same bytes, and the pass itself has decoded it on the way.  If some match can go, the decoder has fewer opcodes to
      handle than before; if none can, nothing is changed. */
  method Optimize(a: array<Byte>, outLen: nat) returns (code: Code, out: seq<Byte>, ghost before: seq<Token>)
    requires Decompress(a[..], outLen).code == OK
    modifies a
    ensures code == OK && Decompress(old(a[..]), outLen) == Outcome(OK, out)
    ensures Decompress(a[..], outLen) == Decompress(old(a[..]), outLen)
    ensures LeanBlock(old(a[..]), outLen) ==> LeanBlock(a[..], outLen)
    ensures Tokens(old(a[..]), before)
    ensures (exists i: nat :: Spot(old(a[..]), before, i)) <==> Rounds(a[..], 0, Start, [], outLen) < Rounds(old(a[..]), 0, Start, [], outLen)
    ensures (exists i: nat :: Spot(old(a[..]), before, i)) <==> a[..] != old(a[..])
  {
    hide ParseOp, Decode, Rewritten, LitPlace, SameContext, Trim, LeanFrom, Traced, Counted, Spot, Plain, Rounds, Tokens;
    ghost var orig := a[..];
    ghost var r := Decompress(orig, outLen);
    ghost var done: seq<Token> := [];
    var ip: nat, ctx, litp: int, lit: nat := 0, Start, -1, 0;
    out, before := [], [];
    AtBegin(orig, outLen, r);
    CountStart(orig, outLen);
    TracedStart(orig);
    InRoom(orig, 0, Start, [], outLen);
    while true
      invariant At(a[..], orig, ip, ctx, out, done, litp, lit, outLen, r)
      invariant Traced(orig, ip, ctx, before, done) && Counted(orig, ip, ctx, out, outLen, |before|)
      decreases |orig| - ip
    {
      SuffixOf(a[..], orig, ip, out, done);
      var o := ReadOp(a, 0, a.Length, ip, ctx, orig);
      match o
      case Bad(c) => BadIsNotOk(orig, ip, ctx); DecodeBad(orig, ip, ctx, out, outLen); assert false; return c, out, before;
      case Stop(next) =>
        AtEnd(a[..], orig, ip, ctx, out, done, litp, lit, outLen, r);
        Gained(a[..], orig, ip, ctx, out, done, litp, lit, outLen, r, before);
        return if next == a.Length then OK else InputNotConsumed, out, before;
      case Literals(n, next) =>
        ghost var tok;
        done, tok := KeepLiterals(a[..], orig, ip, ctx, out, done, litp, lit, outLen, r);
        LiteralNext(orig, ip, ctx);
        var first := ctx == Start && a[ip] > 17;
        TraceLiterals(orig, ip, ctx, out, before, done, outLen, tok);
        assert a[..][next..next + n] == orig[next..next + n];
        before := before + [tok];
        out := AppendBytes(out, a[..], next, n);
        if !first { litp, lit := ip, n; }
        ip, ctx := next + n, if n < 4 then AfterShort else AfterRun;
      case CopyOp(len, off, next) =>
        ip, ctx, out, litp, lit, done, before := OptimizeMatch(a, ip, ctx, len, off, next, litp, lit, out, orig, done, outLen, r, before);
    }
  }

  /** The tokens of a block: their bytes are its first ones, and then comes the end marker. */
  ghost predicate Tokens(block: seq<Byte>, toks: seq<Token>) {
    && Legal(Start, toks) && AllWellFormed(toks) && |EncAll(toks)| <= |block| && block[..|EncAll(toks)|] == EncAll(toks)
    && ParseOp(block, |EncAll(toks)|, End(Start, toks)).Stop?
  }

  lemma CountStart(orig: seq<Byte>, cap: nat)
    ensures Counted(orig, 0, Start, [], cap, 0)
  {
    hide Rounds;
  }

  lemma {:induction false} TraceLiterals(orig: seq<Byte>, ip: nat, ctx: Context, out: seq<Byte>, before: seq<Token>, done: seq<Token>,
                                         cap: nat, tok: Token)
    requires done != [] && Traced(orig, ip, ctx, before, done[..|done| - 1]) && done[|done| - 1] == tok && Counted(orig, ip, ctx, out, cap, |before|)
    requires ParseOp(orig, ip, ctx).Literals? && Decode(orig, ip, ctx, out, cap).code == OK
    requires !tok.Match? && Valid(ctx, tok) && WellFormed(tok) && |tok.lits| == ParseOp(orig, ip, ctx).n
    requires var end := ip + |Enc(tok)|; end == ParseOp(orig, ip, ctx).next + |tok.lits| <= |orig| && orig[ip..end] == Enc(tok)
    ensures var o := ParseOp(orig, ip, ctx); var ctx' := if o.n < 4 then AfterShort else AfterRun;
            && o.next + o.n <= |orig| && Traced(orig, o.next + o.n, ctx', before + [tok], done)
            && Counted(orig, o.next + o.n, ctx', out + orig[o.next..o.next + o.n], cap, |before| + 1)
  {
    hide ParseOp, Decode, Traced, Plain, Spot, Counted, Rounds, Enc, Valid;
    CountLiterals(orig, ip, ctx, out, cap, |before|);
    var init := done[..|done| - 1];
    assert done == init + [tok];
    TracedRead(orig, ip, ctx, before, init);
    ReadLiterals(orig, ip, ctx, before, tok);
    var end := ip + |Enc(tok)|;
    ReadWellFormed(orig, end, if |tok.lits| < 4 then AfterShort else AfterRun, before + [tok]);
    NotFirst(orig, before, tok);
    TracedKeep(orig, ip, ctx, before, init, tok, end, if |tok.lits| < 4 then AfterShort else AfterRun);
  }

  /** At the end: fewer opcodes if and only if some match could go. */
  lemma {:induction false} Gained(a: seq<Byte>, orig: seq<Byte>, ip: nat, ctx: Context, out: seq<Byte>, done: seq<Token>,
                                  litp: int, lit: nat, cap: nat, r: Outcome, before: seq<Token>)
    requires At(a, orig, ip, ctx, out, done, litp, lit, cap, r) && ParseOp(orig, ip, ctx).Stop? && |r.out| <= cap && |out| <= cap
    requires Traced(orig, ip, ctx, before, done) && Counted(orig, ip, ctx, out, cap, |before|)
    ensures Tokens(orig, before)
    ensures (exists i: nat :: Spot(orig, before, i)) <==> Rounds(a, 0, Start, [], cap) < Rounds(orig, 0, Start, [], cap)
    ensures (exists i: nat :: Spot(orig, before, i)) <==> a != orig
  {
    hide ParseOp, Legal, EncAll, Decode, Trim, LitPlace, SameContext, Spot, Rounds;
    RoundsAtEnd(orig, ip, ctx, out, cap);
    DoneRounds(a, orig, ip, ctx, out, done, litp, lit, cap, r);
    assert Plain(orig, before) <==> !exists i: nat :: Spot(orig, before, i);
    if Plain(orig, before) {
      assert a == orig by { SameTokens(a, orig, ip, out, done); }
    }
  }

  lemma {:induction false} DoneRounds(a: seq<Byte>, orig: seq<Byte>, ip: nat, ctx: Context, out: seq<Byte>, done: seq<Token>,
                                      litp: int, lit: nat, cap: nat, r: Outcome)
    requires At(a, orig, ip, ctx, out, done, litp, lit, cap, r) && ParseOp(orig, ip, ctx).Stop? && |out| <= cap
    ensures Rounds(a, 0, Start, [], cap) == |done| + 1
  {
    hide ParseOp, Decode, Trim, LitPlace, EncAll, Legal, Rounds;
    StopAnywhere(a, orig, ip, ctx, done, out);
    assert out[..|out|] == out;
    WroteSizes(out, a[..ip], done);
    assert a[0..0 + |EncAll(done)|] == EncAll(done);
    RoundsOf(a, 0, Start, done, [], cap);
    RoundsAtEnd(a, ip, End(Start, done), out, cap);
  }

  lemma SameTokens(a: seq<Byte>, orig: seq<Byte>, ip: nat, out: seq<Byte>, done: seq<Token>)
    requires Rewritten(a, orig, ip, out, done) && AllWellFormed(done) && orig[..ip] == EncAll(done)
    ensures a == orig
  {
    hide EncAll, Legal;
    assert a == a[..ip] + a[ip..] && orig == orig[..ip] + orig[ip..];
  }

  lemma AtBegin(orig: seq<Byte>, cap: nat, r: Outcome)
    requires r == Decompress(orig, cap) && r.code == OK
    ensures At(orig, orig, 0, Start, [], [], -1, 0, cap, r)
  {
    hide Decode, Step;
  }

  lemma DecodeBad(orig: seq<Byte>, ip: nat, ctx: Context, out: seq<Byte>, cap: nat)
    requires ParseOp(orig, ip, ctx).Bad?
    ensures Decode(orig, ip, ctx, out, cap).code == ParseOp(orig, ip, ctx).code
  {
    hide ParseOp;
  }

  lemma {:induction false} InRoom(inp: seq<Byte>, ip: nat, ctx: Context, out: seq<Byte>, cap: nat)
    requires |out| <= cap
    ensures |Decode(inp, ip, ctx, out, cap).out| <= cap
    decreases |inp| - ip
  {
    hide Step;
    StepRoom(inp, ip, ctx, out, cap);
    var s := Step(inp, ip, ctx, out, cap);
    if s.More? { InRoom(inp, s.ip, s.ctx, s.out, cap); }
  }

  lemma StepRoom(inp: seq<Byte>, ip: nat, ctx: Context, out: seq<Byte>, cap: nat)
    requires |out| <= cap
    ensures var s := Step(inp, ip, ctx, out, cap); |(if s.More? then s.out else s.r.out)| <= cap
  {
    hide ParseOp, Copy;
  }
}
