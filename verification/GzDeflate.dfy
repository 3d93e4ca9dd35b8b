/** deflate(): lazy matching over the sliding window, and the round trip of the whole compressor. */
module GzDeflate {
  import opened Arithmetic
  import opened Bytes
  import opened GzWindow
  import opened GzSearch
  import opened GzOverrun
  import opened BitSeq
  import opened BitWriter
  import opened DeflateFormat
  import opened DeflateBuffers
  import opened DeflateBlocks
  import opened DeflateCoder

  lemma {:induction false} MatchApplies(all: seq<Byte>, p: nat, d: int, len: nat)
    requires MatchAt(all, p, d, len)
    ensures Fits(all[..p], Ref(len, d)) && Apply(all[..p], Ref(len, d)) == all[..p + len]
  {
    hide Copy;
    CopyUnique(all, p, d, len);
  }

  // ---------- the state of the loop ----------

  /** The tokens of the current block, played after all earlier output, give the input up to q. */
  ghost predicate Tokened(all: seq<Byte>, b: int, q: int, toks: seq<Token>) {
    0 <= b <= q <= |all| && Playable(all[..b], toks) && Play(all[..b], toks) == all[..q]
  }

  lemma {:induction false} TokenedMore(all: seq<Byte>, b: int, q: int, toks: seq<Token>, t: Token, q': int)
    requires Tokened(all, b, q, toks) && q <= q' <= |all| && Fits(all[..q], t) && Apply(all[..q], t) == all[..q']
    ensures Tokened(all, b, q', toks + [t])
  {
    hide Playable, Play, Fits, Apply;
    PlayOne(all[..b], toks, t);
  }

  lemma {:induction false} TokenedLit(all: seq<Byte>, b: int, q: int, toks: seq<Token>)
    requires Tokened(all, b, q, toks) && q < |all|
    ensures Tokened(all, b, q + 1, toks + [Lit(all[q])])
  {
    hide Playable, Play;
    assert all[..q] + [all[q]] == all[..q + 1];
    TokenedMore(all, b, q, toks, Lit(all[q]), q + 1);
  }

  lemma {:induction false} TokenedRef(all: seq<Byte>, b: int, q: int, toks: seq<Token>, d: int, len: nat)
    requires Tokened(all, b, q, toks) && MatchAt(all, q, d, len)
    ensures d >= 0 && Tokened(all, b, q + len, toks + [Ref(len, d)])
  {
    hide Playable, Play, Apply, Fits;
    MatchApplies(all, q, d, len);
    TokenedMore(all, b, q, toks, Ref(len, d), q + len);
  }

  lemma TokenedGrow(all: seq<Byte>, all': seq<Byte>, b: int, q: int, toks: seq<Token>)
    requires Tokened(all, b, q, toks) && all <= all'
    ensures Tokened(all', b, q, toks)
  {
    hide Playable, Play;
    assert all'[..b] == all[..b] && all'[..q] == all[..q];
  }

  lemma TokenedNone(all: seq<Byte>, q: int)
    requires 0 <= q <= |all|
    ensures Tokened(all, q, q, [])
  {
  }

  /** The pending match: it ends inside the input, and only a pending match is longer than 2. */
  ghost predicate Pending(all: seq<Byte>, p: int, available: bool, matchLength: nat, matchAt: int) {
    && 1 <= matchLength <= MAX_MATCH && 0 <= p <= |all| && (available ==> p >= 1) && (!available ==> matchLength == MIN_MATCH - 1)
    && (matchLength >= MIN_MATCH ==> p >= 1 && MatchAt(all, p - 1, p - 1 - matchAt, matchLength) && p - 1 - matchAt <= MAX_DIST)
  }

  lemma PendingGrow(all: seq<Byte>, all': seq<Byte>, p: int, available: bool, matchLength: nat, matchAt: int)
    requires Pending(all, p, available, matchLength, matchAt) && all <= all'
    ensures Pending(all', p, available, matchLength, matchAt)
  {
  }

  /** The writer has sent all blocks before b, and their bits are all that it has sent. */
  ghost predicate Sent(c: Coder, done: seq<Byte>)
    reads c, c.lbuf, c.dbuf, c.flagBuf, c.w, c.w.outbuf
  {
    c.Valid() && c.w.Valid() && c.compressedLen == |c.w.Bits()| && Continues(c.w.Bits(), done)
  }

  /** Where the window and the coder are with respect to the input. */
  ghost predicate Running(win: Window, c: Coder, q: int)
    reads win, c, c.lbuf, c.dbuf, c.flagBuf, c.w, c.w.outbuf
  {
    && win.Valid() && Tokened(win.all, win.base + win.blockStart, q, c.toks)
    && Sent(c, win.all[..win.base + win.blockStart])
  }

  /** FLUSH_BLOCK */
  method Flush(win: Window, c: Coder, eof: bool) returns (bytes: nat)
    requires Running(win, c, win.base + win.strstart)
    modifies c, c.lbuf, c.dbuf, c.flagBuf, c.heap, c.w, c.w.outbuf
    ensures c.Valid() && c.w.Valid() && c.toks == [] && c.lastLit == 0
    ensures !eof ==> Sent(c, win.all[..win.base + win.strstart])
    ensures eof ==> bytes == |c.w.Out()| && Decompresses(c.w.Out(), win.all[..win.base + win.strstart])
  {
    hide Heads, Links, Playable, Play, Continues, Writer.Bits, Writer.Valid, Writer.Out, Decompresses, Coder.Set, Stored, Frequencies, Coder.Chosen;
    var data := if win.blockStart >= 0 then win.window[win.blockStart..win.strstart] else [];
    BlockData(win, data);
    ghost var grown, kind, t, sent;
    bytes, grown, kind, t, sent := c.FlushBlock(data, win.blockStart >= 0, win.strstart - win.blockStart, eof, win.all[..win.base + win.blockStart]);
  }

  /** The window still holds the bytes of the block, if it has not moved on. */
  lemma {:induction false} BlockData(win: Window, data: seq<Byte>)
    requires win.Valid() && 0 <= win.base + win.blockStart <= win.base + win.strstart
    requires data == if win.blockStart >= 0 then win.window[win.blockStart..win.strstart] else []
    ensures win.base + win.strstart <= |win.all|
    ensures win.blockStart >= 0 ==> win.all[..win.base + win.strstart] == win.all[..win.base + win.blockStart] + data
  {
    hide Heads, Links;
    if win.blockStart >= 0 {
      forall i | 0 <= i < |data| ensures data[i] == win.all[win.base + win.blockStart + i] {
        assert data[i] == win.window[win.blockStart + i];
      }
    }
  }

  // ---------- the branches of the loop ----------

  /** Before and after each step: the window is ready, and there is room in the buffers. */
  ghost predicate Steady(win: Window, c: Coder, q: int)
    reads win, c, c.lbuf, c.dbuf, c.flagBuf, c.w, c.w.outbuf
  {
    win.Ready() && Running(win, c, q) && c.lastLit + 1 < LIT_BUFSIZE
  }

  method FlushIfFull(win: Window, c: Coder, full: bool)
    requires win.Ready() && Running(win, c, win.base + win.strstart) && (full || c.lastLit + 1 < LIT_BUFSIZE)
    modifies win`blockStart, c, c.lbuf, c.dbuf, c.flagBuf, c.heap, c.w, c.w.outbuf
    ensures Steady(win, c, win.base + win.strstart)
    ensures c.toks == (if full then [] else old(c.toks)) && win.blockStart == (if full then win.strstart else old(win.blockStart))
  {
    hide Heads, Links, Primed, Continues, Writer.Bits, Writer.Valid, Coder.Set, Stored, Frequencies, Tokened;
    if full {
      c.Apart();
      var _ := Flush(win, c, false);
      win.blockStart := win.strstart;
      TokenedNone(win.all, win.base + win.strstart);
    }
  }

  /** The previous match is output. */
  method TakeMatch(win: Window, c: Coder, prevMatch: int)
    requires Steady(win, c, win.base + win.strstart - 1) && win.ins == win.strstart + 1 && MIN_MATCH <= win.prevLength <= MAX_MATCH
    requires (win.eofile || win.lookahead >= MIN_LOOKAHEAD) && win.strstart >= 1 && win.strstart - 1 - prevMatch <= MAX_DIST
    requires MatchAt(win.all, win.base + win.strstart - 1, win.strstart - 1 - prevMatch, win.prevLength)
    modifies win`insH, win`head, win`prev, win`ins, win`strstart, win`prevLength, win`lookahead, win`blockStart, win`far,
             c, c.lbuf, c.dbuf, c.flagBuf, c.heap, c.w, c.w.outbuf
    ensures (old(win.Inside()) ==> win.Inside()) && win.far >= old(win.far) && win.lookahead == old(win.lookahead - (win.prevLength - 1))
    ensures |win.head| == HASH_SIZE && 1 <= win.strstart <= |win.window| - 2 && win.head[KeyAt(win.window, win.strstart - 1)] == win.strstart - 1
    ensures Steady(win, c, win.base + win.strstart) && win.ins == win.strstart == old(win.strstart + win.prevLength - 1)
    ensures win.eofile || win.lookahead >= 2
    ensures old(win.strstart) >= old(win.blockStart) && old(win.strstart) - 1 >= prevMatch
    ensures var toks := old(c.toks) + [Ref(old(win.prevLength), old(win.strstart) - 1 - prevMatch)];
            c.toks == (if FullBlock(toks, old(win.strstart - win.blockStart)) then [] else toks)
  {
    hide Heads, Links, Primed, Playable, Play, Continues, Writer.Bits, Writer.Valid, Coder.Set, Stored, Frequencies, MatchAt, Tokened, DistEstimate,
         Window.Inside, KeyAt, FullBlock;
    TokenedBounds(win.all, win.base + win.blockStart, win.base + win.strstart - 1, c.toks);
    MatchBounds(win.all, win.base + win.strstart - 1, win.strstart - 1 - prevMatch, win.prevLength);
    TokenedRef(win.all, win.base + win.blockStart, win.base + win.strstart - 1, c.toks, win.strstart - 1 - prevMatch, win.prevLength);
    c.Apart();
    var flush := c.CtTally(win.strstart - 1 - prevMatch, win.prevLength - MIN_MATCH, win.strstart - win.blockStart);
    SkipMatch(win);
    FlushIfFull(win, c, flush);
  }

  lemma MatchBounds(all: seq<Byte>, p: nat, d: int, len: nat)
    requires MatchAt(all, p, d, len)
    ensures 1 <= d <= p && p + len <= |all|
  {
  }

  lemma TokenedBounds(all: seq<Byte>, b: int, q: int, toks: seq<Token>)
    requires Tokened(all, b, q, toks)
    ensures 0 <= b <= q <= |all|
  {
  }

  /** The byte before the current position is output as a literal. */
  method TakeLiteral(win: Window, c: Coder)
    requires Steady(win, c, win.base + win.strstart - 1) && win.strstart >= 1
    modifies win`blockStart, c, c.lbuf, c.dbuf, c.flagBuf, c.heap, c.w, c.w.outbuf
    ensures Steady(win, c, win.base + win.strstart) && 1 <= win.strstart <= |win.window| && win.strstart >= old(win.blockStart)
    ensures var toks := old(c.toks) + [Lit(win.window[win.strstart - 1])];
            c.toks == (if FullBlock(toks, win.strstart - old(win.blockStart)) then [] else toks)
  {
    hide Heads, Links, Primed, Playable, Play, Continues, Writer.Bits, Writer.Valid, Coder.Set, Stored, Frequencies, Tokened, DistEstimate, FullBlock;
    TokenedBounds(win.all, win.base + win.blockStart, win.base + win.strstart - 1, c.toks);
    TokenedLit(win.all, win.base + win.blockStart, win.base + win.strstart - 1, c.toks);
    c.Apart();
    var flush := c.CtTally(0, win.window[win.strstart - 1], win.strstart - win.blockStart);
    FlushIfFull(win, c, flush);
  }

  /** One round of the loop, without the filling at its end. */
  method Step(win: Window, c: Coder, available0: bool, matchLength0: nat)
    returns (available: bool, matchLength: nat, ghost best: nat, ghost found: nat, ghost tried: nat, ghost v1: View)
    requires Steady(win, c, win.base + win.strstart - (if available0 then 1 else 0)) && win.ins == win.strstart && win.lookahead >= 1
    requires win.eofile || win.lookahead >= MIN_LOOKAHEAD
    requires Pending(win.all, win.base + win.strstart, available0, matchLength0, win.base + win.matchStart)
    modifies win`insH, win`head, win`prev, win`ins, win`matchStart, win`strstart, win`prevLength, win`lookahead, win`blockStart, win`far,
             c, c.lbuf, c.dbuf, c.flagBuf, c.heap, c.w, c.w.outbuf
    ensures old(win.Inside()) ==> win.Inside()
    ensures Steady(win, c, win.base + win.strstart - (if available then 1 else 0)) && win.ins == win.strstart
    ensures win.eofile || win.lookahead >= 2
    ensures Pending(win.all, win.base + win.strstart, available, matchLength, win.base + win.matchStart)
    ensures win.strstart > old(win.strstart)
    ensures Round(old(win.Now()), v1, win.Now(), matchLength0, matchLength, best, found)
    ensures Emitted(old(c.toks), c.toks, win.window, old(win.strstart), old(win.blockStart), available0, matchLength0, old(win.matchStart), found)
    ensures matchLength == (if matchLength0 >= 3 && found <= matchLength0 then 2 else found)
    ensures |win.window| == WINDOW + SLACK && (best == 0 ==> found == 2)
    ensures best > 0 ==> var cut := if best < old(win.lookahead) then best else old(win.lookahead);
                         found == (if cut == 3 && old(win.strstart) - win.matchStart > 4096 then 2 else cut)
    ensures matchLength0 < 258 && best < 258 && tried != (if matchLength0 >= 32 then 1024 else 4096) ==>
              NoneLonger(win.window, old(win.strstart), best)
  {
    hide Window.Valid, Window.Inside, Primed, Sent, MatchAt, Tokened, Searched, Emitted, NoneLonger;
    var prevMatch;
    matchLength, prevMatch, best, tried := Search(win, matchLength0);
    found, v1 := matchLength, win.Now();
    available, matchLength := Decide(win, c, available0, prevMatch, matchLength);
  }

  /** The part of a round after the search: the match before is output, or the byte before, if there is one. */
  method Decide(win: Window, c: Coder, available0: bool, prevMatch: int, found: nat) returns (available: bool, matchLength: nat)
    requires Steady(win, c, win.base + win.strstart - (if available0 then 1 else 0)) && win.ins == win.strstart + 1 && win.lookahead >= 1
    requires win.eofile || win.lookahead >= MIN_LOOKAHEAD
    requires Pending(win.all, win.base + win.strstart, available0, win.prevLength, win.base + prevMatch) && 1 <= found <= MAX_MATCH
    requires found > win.prevLength && found >= MIN_MATCH ==>
      win.strstart - win.matchStart <= MAX_DIST && MatchAt(win.all, win.base + win.strstart, win.strstart - win.matchStart, found)
    modifies win`insH, win`head, win`prev, win`ins, win`strstart, win`prevLength, win`lookahead, win`blockStart, win`far,
             c, c.lbuf, c.dbuf, c.flagBuf, c.heap, c.w, c.w.outbuf
    ensures old(win.Inside()) ==> win.Inside()
    ensures Steady(win, c, win.base + win.strstart - (if available then 1 else 0)) && win.ins == win.strstart
    ensures win.eofile || win.lookahead >= 2
    ensures Pending(win.all, win.base + win.strstart, available, matchLength, win.base + win.matchStart)
    ensures win.strstart > old(win.strstart) && Moved(old(win.Now()), win.Now(), old(win.prevLength), matchLength, found)
    ensures Emitted(old(c.toks), c.toks, win.window, old(win.strstart), old(win.blockStart), available0, old(win.prevLength), prevMatch, found)
  {
    hide Window.Valid, Window.Inside, Primed, Sent, MatchAt, Tokened, KeyAt, FullBlock, Emitted, Heads, Links, Moved;
    ghost var v, toks, s, b, len := win.Now(), c.toks, win.strstart, win.blockStart, win.prevLength;
    Extent(win);
    if win.prevLength >= MIN_MATCH && found <= win.prevLength {
      TakeMatch(win, c, prevMatch);
      EmitsMatch(toks, c.toks, win.window, s, b, available0, len, prevMatch, found);
      MovedOver(v, win.Now(), len, found);
      Extent(win);
      return false, MIN_MATCH - 1;
    }
    Pass(win, c, available0, prevMatch, found);
    return true, found;
  }

  /** No match is output: the byte before is, if there is one, and the match that was found waits for the next round. */
  method Pass(win: Window, c: Coder, available0: bool, ghost prevMatch: int, ghost found: nat)
    requires Steady(win, c, win.base + win.strstart - (if available0 then 1 else 0)) && win.ins == win.strstart + 1 && win.lookahead >= 1
    requires win.eofile || win.lookahead >= MIN_LOOKAHEAD
    requires (available0 ==> win.base + win.strstart >= 1) && 1 <= found <= MAX_MATCH && (win.prevLength < MIN_MATCH || found > win.prevLength)
    requires found >= MIN_MATCH ==>
      win.strstart - win.matchStart <= MAX_DIST && MatchAt(win.all, win.base + win.strstart, win.strstart - win.matchStart, found)
    modifies win`strstart, win`lookahead, win`blockStart, c, c.lbuf, c.dbuf, c.flagBuf, c.heap, c.w, c.w.outbuf
    ensures Steady(win, c, win.base + win.strstart - 1) && win.ins == win.strstart && win.strstart > old(win.strstart)
    ensures win.eofile || win.lookahead >= 2
    ensures Pending(win.all, win.base + win.strstart, true, found, win.base + win.matchStart)
    ensures Moved(old(win.Now()), win.Now(), win.prevLength, found, found)
    ensures Emitted(old(c.toks), c.toks, win.window, old(win.strstart), old(win.blockStart), available0, win.prevLength, prevMatch, found)
  {
    hide Window.Valid, Window.Inside, Primed, Sent, MatchAt, Tokened, KeyAt, FullBlock, Emitted, Heads, Links, Moved;
    ghost var v, toks, s, b, len := win.Now(), c.toks, win.strstart, win.blockStart, win.prevLength;
    Extent(win);
    if available0 {
      TakeLiteral(win, c);
      EmitsLit(toks, c.toks, win.window, s, b, len, prevMatch, found);
    } else {
      EmitsNothing(toks, win.window, s, b, len, prevMatch, found);
    }
    Advance(win);
    MovedOn(v, win.Now(), len, found);
    Extent(win);
  }

  /** What a round adds to the tokens of the block: the match at the position before, if it has at least three bytes and
      the one found now is not longer; or else the byte before, if it is still to come. */
  ghost predicate Emitted(toks: seq<Token>, toks': seq<Token>, w: seq<Byte>, s: nat, blockStart: int, available: bool,
                          len: nat, at: int, found: nat) {
    if len >= 3 && found <= len then
      && s - 1 >= at && s >= blockStart
      && var more := toks + [Ref(len, s - 1 - at)]; toks' == (if FullBlock(more, s - blockStart) then [] else more)
    else if available then
      && 1 <= s <= |w| && s >= blockStart
      && var more := toks + [Lit(w[s - 1])]; toks' == (if FullBlock(more, s - blockStart) then [] else more)
    else toks' == toks
  }

  lemma MovedOver(v: View, v': View, len: nat, found: nat)
    requires len >= 3 && found <= len && v'.s == v.s + len - 1 && v.look >= len - 1 && v'.look == v.look - (len - 1) && v.far <= v'.far
    requires v' == v.(head := v'.head, s := v'.s, look := v'.look, far := v'.far)
    requires |v'.head| == HASH_SIZE && v'.s + 1 < |v.w| && v'.head[KeyAt(v.w, v'.s - 1)] == v'.s - 1
    ensures Moved(v, v', len, 2, found)
  {
    hide KeyAt;
  }

  lemma MovedOn(v: View, v': View, len: nat, found: nat)
    requires (len < 3 || found > len) && v.look >= 1 && v'.s == v.s + 1 && v'.look == v.look - 1 && v' == v.(s := v'.s, look := v'.look)
    ensures Moved(v, v', len, found, found)
  {
  }

  lemma EmitsMatch(toks: seq<Token>, toks': seq<Token>, w: seq<Byte>, s: nat, blockStart: int, available: bool, len: nat, at: int, found: nat)
    requires len >= 3 && found <= len && s - 1 >= at && s >= blockStart
    requires var more := toks + [Ref(len, s - 1 - at)]; toks' == (if FullBlock(more, s - blockStart) then [] else more)
    ensures Emitted(toks, toks', w, s, blockStart, available, len, at, found)
  {
  }

  lemma EmitsLit(toks: seq<Token>, toks': seq<Token>, w: seq<Byte>, s: nat, blockStart: int, len: nat, at: int, found: nat)
    requires len < 3 || found > len
    requires 1 <= s <= |w| && s >= blockStart
    requires var more := toks + [Lit(w[s - 1])]; toks' == (if FullBlock(more, s - blockStart) then [] else more)
    ensures Emitted(toks, toks', w, s, blockStart, true, len, at, found)
  {
  }

  lemma EmitsNothing(toks: seq<Token>, w: seq<Byte>, s: nat, blockStart: int, len: nat, at: int, found: nat)
    requires len < 3 || found > len
    ensures Emitted(toks, toks, w, s, blockStart, false, len, at, found)
  {
  }

  method StepAndFill(win: Window, c: Coder, available0: bool, matchLength0: nat, ghost n: nat) returns (available: bool, matchLength: nat)
    requires Steady(win, c, win.base + win.strstart - (if available0 then 1 else 0)) && win.ins == win.strstart && win.lookahead >= 1
    requires win.eofile || win.lookahead >= MIN_LOOKAHEAD
    requires Pending(win.all, win.base + win.strstart, available0, matchLength0, win.base + win.matchStart)
    modifies win, c, c.lbuf, c.dbuf, c.flagBuf, c.heap, c.w, c.w.outbuf
    ensures Steady(win, c, win.base + win.strstart - (if available then 1 else 0)) && win.ins == win.strstart
    ensures win.eofile || win.lookahead >= MIN_LOOKAHEAD
    ensures Pending(win.all, win.base + win.strstart, available, matchLength, win.base + win.matchStart)
    ensures win.Input() == old(win.Input()) && win.base + win.strstart > old(win.base + win.strstart)
    ensures old(win.Inside()) ==> win.Inside()
    ensures LongTail(n) && old(LongTail(n) && Course(win.Now(), matchLength0, n)) ==> Course(win.Now(), matchLength, n)
  {
    hide LongTail, Course, Round, Steady, Pending, Unread, Window.Inside, Window.Input;
    ghost var v, v1, best, found, tried := win.Now(), win.Now(), 0, 0, 0;
    available, matchLength, best, found, tried, v1 := Step(win, c, available0, matchLength0);
    if LongTail(n) && Course(v, matchLength0, n) { Go(v, v1, win.Now(), matchLength0, matchLength, best, found, n); }
    FillUp(win, c, available, matchLength, n);
  }

  /** deflate: an inflater makes the whole input of what has been written, for every way the input can be read. */
  method DeflateAll(win: Window, c: Coder, ghost n: nat) returns (bytes: nat)
    requires win.Valid() && win.ins == win.strstart && win.base + win.strstart == 0 && win.base + win.blockStart == 0
    requires (win.eofile || win.lookahead >= MIN_LOOKAHEAD) && (win.lookahead != 0 ==> win.Ready()) && win.Inside()
    requires c.Valid() && c.w.Valid() && c.toks == [] && c.lastLit == 0 && c.w.Bits() == [] && c.compressedLen == 0
    modifies win, c, c.lbuf, c.dbuf, c.flagBuf, c.heap, c.w, c.w.outbuf
    ensures c.w.Valid() && bytes == |c.w.Out()| && Decompresses(c.w.Out(), old(win.Input()))
    ensures win.far <= WINDOW || LongTail(|old(win.Input())|)
    ensures LongTail(n) && old(LongTail(n) && Course(win.Now(), MIN_MATCH - 1, n)) ==> win.far > WINDOW
  {
    hide LongTail, Course, Round, Heads, Links, Primed, Coder.Valid, Writer.Bits, Writer.Valid, Writer.Out, Continues, MatchAt, Tokened, Decompresses, Unread;
    var available: bool, matchLength: nat := false, MIN_MATCH - 1;
    StartContinues();
    TokenedNone(win.all, 0);
    assert win.all[..0] == [];
    while win.lookahead != 0
      invariant win.Valid() && (win.lookahead != 0 ==> win.Ready()) && win.ins == win.strstart && (win.eofile || win.lookahead >= MIN_LOOKAHEAD)
      invariant Running(win, c, win.base + win.strstart - (if available then 1 else 0)) && c.lastLit + 1 < LIT_BUFSIZE
      invariant Pending(win.all, win.base + win.strstart, available, matchLength, win.base + win.matchStart)
      invariant win.Input() == old(win.Input()) && win.Inside()
      invariant LongTail(n) && old(LongTail(n) && Course(win.Now(), MIN_MATCH - 1, n)) ==> Course(win.Now(), matchLength, n)
      decreases |win.Input()| - (win.base + win.strstart)
    {
      available, matchLength := StepAndFill(win, c, available, matchLength, n);
    }
    if LongTail(n) && Course(win.Now(), matchLength, n) { Finish(win.Now(), matchLength, n); }
    AllRead(win);
    TailLength(win);
    if available {
      LastLiteral(win, c);
    }
    bytes := Flush(win, c, true);
  }

  lemma TailLength(win: Window)
    requires win.Valid() && win.eofile && win.lookahead == 0 && win.Inside()
    ensures win.far <= WINDOW || LongTail(|win.Input()|)
  {
    hide Heads, Links;
    if win.far > WINDOW {
      var n, q := |win.all|, win.base / WSIZE;
      Remainder(n, WSIZE, q + 1, n - win.base - WSIZE);
    }
  }

  /** The filling at the end of a round. */
  method FillUp(win: Window, c: Coder, available: bool, matchLength: nat, ghost n: nat)
    requires Steady(win, c, win.base + win.strstart - (if available then 1 else 0)) && win.ins == win.strstart && (win.eofile || win.lookahead >= 2)
    requires Pending(win.all, win.base + win.strstart, available, matchLength, win.base + win.matchStart)
    modifies win
    ensures Steady(win, c, win.base + win.strstart - (if available then 1 else 0)) && win.ins == win.strstart
    ensures win.eofile || win.lookahead >= MIN_LOOKAHEAD
    ensures Pending(win.all, win.base + win.strstart, available, matchLength, win.base + win.matchStart)
    ensures win.Input() == old(win.Input()) && win.base + win.strstart == old(win.base + win.strstart)
    ensures old(win.Inside()) ==> win.Inside()
    ensures LongTail(n) && old(LongTail(n) && Course(win.Now(), matchLength, n)) ==> Course(win.Now(), matchLength, n)
  {
    hide LongTail, Course, Heads, Links, Primed, Coder.Valid, Writer.Bits, Writer.Valid, Continues, Tokened, Pending, Unread;
    ghost var all, b, p := win.all, win.base + win.blockStart, win.base + win.strstart;
    ghost var q := p - (if available then 1 else 0);
    TokenedBounds(all, b, q, c.toks);
    Refill(win, matchLength, n);
    TokenedGrow(all, win.all, b, q, c.toks);
    PendingGrow(all, win.all, p, available, matchLength, win.base + win.matchStart);
    assert win.all[..b] == all[..b];
  }

  lemma AllRead(win: Window)
    requires win.Valid() && win.eofile && win.lookahead == 0
    ensures win.all[..win.base + win.strstart] == win.Input()
  {
    hide Heads, Links;
  }

  /** The byte that is still pending at the end. */
  method LastLiteral(win: Window, c: Coder)
    requires Running(win, c, win.base + win.strstart - 1) && c.lastLit + 1 < LIT_BUFSIZE && win.base + win.strstart >= 1
    modifies c, c.lbuf, c.dbuf, c.flagBuf
    ensures Running(win, c, win.base + win.strstart)
  {
    hide Heads, Links, Primed, Playable, Play, Continues, Writer.Bits, Writer.Valid, Coder.Set, Stored, Frequencies, Tokened, DistEstimate;
    TokenedBounds(win.all, win.base + win.blockStart, win.base + win.strstart - 1, c.toks);
    TokenedLit(win.all, win.base + win.blockStart, win.base + win.strstart - 1, c.toks);
    c.Apart();
    var _ := c.CtTally(0, win.window[win.strstart - 1], win.strstart - win.blockStart);
  }

  /** The compressor as a whole: the output inflates to the input, whatever the memory held and however the reads come.
      It reads the window up to `far`, which is inside the window unless the length of the input is one of a few. */
  method Gzip(memory: seq<Byte>, links: seq<nat>, file: seq<seq<Byte>>) returns (out: seq<Byte>, ghost far: nat)
    requires |memory| == WINDOW + SLACK && |links| == WSIZE
    ensures Decompresses(out, Unread(file))
    ensures far <= WINDOW || LongTail(|Unread(file)|)
    ensures forall n: nat :: LongTail(n) && file == [Data(n)] && (forall i :: 0 <= i < |memory| ==> memory[i] == 0) ==> far > WINDOW
  {
    hide LongTail, Course, Data, Heads, Links, Primed, Coder.Valid, Unread, Decompresses, BytesToBits;
    var w := new Writer();
    var c := new Coder(w);
    var win := new Window(memory, links, file);
    ghost var n := if file == [] then 0 else |file[0]|;
    LmInit(win, n);
    var _ := DeflateAll(win, c, n);
    w.FlushOutbuf();
    out, far := w.written, win.far;
  }

  /** For every length for which the search may leave the window, there is an input for which it does. */
  method ReadsPastWindow(n: nat, links: seq<nat>) returns (out: seq<Byte>, ghost far: nat)
    requires LongTail(n) && |links| == WSIZE
    ensures |Data(n)| == n && Decompresses(out, Data(n)) && far > WINDOW
  {
    hide LongTail, Data, Decompresses;
    out, far := Gzip(seq(WINDOW + SLACK, _ => 0), links, [Data(n)]);
    assert Data(n) + [] == Data(n) && Data(n) != [] by { NotEmpty(n); }
  }

  lemma NotEmpty(n: nat)
    requires LongTail(n)
    ensures Data(n) != []
  {
    hide Lead;
  }
}
