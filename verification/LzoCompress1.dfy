/** LZO1X-1 and LZO1X-1(15): one pass with a hash table of positions.  The table may hold anything,
    including positions left over from another block: what a match rests on is the range test and the
    byte comparisons alone. */
module LzoCompress1 {
  import opened Bytes
  import opened LzoFormat
  import opened LzoDecode
  import opened LzoWriter
  import opened LzoBounds

  /** DX3(p,5,5,6) */
  function Mix(b0: Byte, b1: Byte, b2: Byte, b3: Byte): bv32 {
    var x := ((b3 as bv32) << 6) ^ (b2 as bv32);
    var y := (x << 5) ^ (b1 as bv32);
    (y << 5) ^ (b0 as bv32)
  }

  function Index1(inp: seq<Byte>, ip: nat, size: nat): (d: nat)
    requires ip + 4 <= |inp| && size >= 1
    ensures d < size
  {
    Scale(Mix(inp[ip], inp[ip + 1], inp[ip + 2], inp[ip + 3]), size)
  }

  function Scale(x: bv32, size: nat): (d: nat)
    requires size >= 1
    ensures d < size
  {
    ((0x21 * x) >> 5) as nat % size
  }

  function Index2(d: nat, size: nat): (d': nat)
    requires 2 <= size <= 0x10000 && d < size
    ensures d' < size
  {
    (((d as bv32) & 0x7ff) ^ ((size / 2) as bv32 | 0x1f)) as nat % size
  }

  const TWO_32 := 0x1_0000_0000

  /** LZO_CHECK_MPOS_NON_DET: the distance is taken modulo 2^32, so a stale pointer can turn up anywhere;
      accepted are exactly the positions before ip, within the input and within reach. */
  function Distance(entry: int, ip: nat): (off: nat)
    ensures off < TWO_32
  {
    (ip - entry) % TWO_32
  }

  predicate Reachable(entry: int, ip: nat) {
    var off := Distance(entry, ip);
    0 < off <= ip && off <= M4_MAX_OFFSET
  }

  /** A usable match of at least three bytes; a distant one has a fourth byte in common too. */
  predicate Candidate(inp: seq<Byte>, ip: nat, off: nat) {
    && 1 <= off <= ip && off <= M4_MAX_OFFSET && ip + 4 <= |inp|
    && inp[ip - off] == inp[ip] && inp[ip - off + 1] == inp[ip + 1] && inp[ip - off + 2] == inp[ip + 2]
    && (off > M2_MAX_OFFSET ==> inp[ip - off + 3] == inp[ip + 3])
  }

  method Probe(inp: seq<Byte>, ip: nat, dict: array<int>) returns (found: bool, off: nat, dindex: nat)
    requires ip + 4 <= |inp| && 2 <= dict.Length <= 0x10000
    ensures dindex < dict.Length
    ensures found ==> Candidate(inp, ip, off)
    ensures var d1 := Index1(inp, ip, dict.Length); var d2 := Index2(d1, dict.Length);
            var m1, m2 := Distance(dict[d1], ip), Distance(dict[d2], ip);
            if !Reachable(dict[d1], ip) then !found && dindex == d1
            else if m1 <= 0x800 || inp[ip - m1 + 3] == inp[ip + 3] then (found <==> Candidate(inp, ip, m1)) && off == m1 && dindex == d1
            else (found <==> Reachable(dict[d2], ip) && Candidate(inp, ip, m2)) && (found ==> off == m2) && dindex == d2
  {
    found, off := false, 0;
    dindex := Index1(inp, ip, dict.Length);
    if !Reachable(dict[dindex], ip) { return; }
    off := Distance(dict[dindex], ip);
    if off > M2_MAX_OFFSET && inp[ip - off + 3] != inp[ip + 3] {
      dindex := Index2(dindex, dict.Length);
      if !Reachable(dict[dindex], ip) { return; }
      off := Distance(dict[dindex], ip);
      if off > M2_MAX_OFFSET && inp[ip - off + 3] != inp[ip + 3] { return; }
    }
    found := inp[ip - off] == inp[ip] && inp[ip - off + 1] == inp[ip + 1] && inp[ip - off + 2] == inp[ip + 2];
  }

  /** The six unrolled comparisons, and then one by one up to the end of the input. */
  method MatchLength(inp: seq<Byte>, ip: nat, off: nat) returns (len: nat)
    requires Candidate(inp, ip, off) && ip + 9 <= |inp|
    ensures 3 <= len && ip + len <= |inp| && (off > M2_MAX_OFFSET ==> len >= 4)
    ensures forall k :: ip <= k < ip + len ==> inp[k] == inp[k - off]
    ensures ip + len == |inp| || inp[ip + len] != inp[ip + len - off]
  {
    len := 3;
    while len < 9 && inp[ip + len - off] == inp[ip + len]
      invariant 3 <= len <= 9
      invariant forall k :: ip <= k < ip + len ==> inp[k] == inp[k - off]
    {
      len := len + 1;
    }
    if len == 9 {
      while ip + len < |inp| && inp[ip + len - off] == inp[ip + len]
        invariant 9 <= len <= |inp| - ip
        invariant forall k :: ip <= k < ip + len ==> inp[k] == inp[k - off]
      {
        len := len + 1;
      }
    }
  }

  function FormFor(len: nat, off: nat): Form {
    if len <= M2_MAX_LEN && off <= M2_MAX_OFFSET then M2 else if off <= M3_MAX_OFFSET then M3 else M4
  }

  /** code the match */
  method PutMatch(op: seq<Byte>, mLen: nat, mOff: nat) returns (op': seq<Byte>)
    requires mLen >= 3 && 1 <= mOff <= M4_MAX_OFFSET
    ensures InRange(FormFor(mLen, mOff), mLen, mOff)
    ensures op' == op + MatchHead(FormFor(mLen, mOff), mLen, mOff, 0)
  {
    if mLen <= M2_MAX_LEN && mOff <= M2_MAX_OFFSET {
      var off := mOff - 1;
      op' := op + [(mLen - 1) * 32 + off % 8 * 4] + [off / 8];
    } else {
      op' := PutFar(op, mLen, mOff);
    }
  }

  lemma MatchSaves(len: nat, off: nat)
    requires len >= 3 && 1 <= off <= M4_MAX_OFFSET && (off > M2_MAX_OFFSET ==> len >= 4)
    ensures InRange(FormFor(len, off), len, off)
    ensures |MatchHead(FormFor(len, off), len, off, 0)| < len
  {
  }

  /** The state between two rounds of the main loop. */
  ghost predicate Between(inp: seq<Byte>, ii: nat, op: seq<Byte>, toks: seq<Token>) {
    && Wrote(inp, ii, op, toks) && RunMayFollow(toks) && Thrifty(toks) && (toks == [] <==> ii == 0)
  }

  lemma RunKeepsThrift(toks: seq<Token>, lits: seq<Byte>)
    requires AllWellFormed(toks) && RunMayFollow(toks) && Thrifty(toks)
    requires 1 <= |lits| && (|lits| > 3 || toks != [])
    ensures var r := RunTokens(toks, lits, false); AllWellFormed(r) && Thrifty(r) && r != []
  {
    hide Prefix, InRange, Low, High;
    var r := RunTokens(toks, lits, false);
    forall i | 0 <= i < |r| && r[i].Match? ensures WellFormed(r[i]) && |Head(r[i])| < r[i].len {
      assert WellFormed(toks[i]) && |Head(toks[i])| < toks[i].len;
    }
  }

  lemma {:induction false} MatchWrote(inp: seq<Byte>, ip: nat, op: seq<Byte>, toks: seq<Token>, len: nat, off: nat)
    requires Wrote(inp, ip, op, toks) && Thrifty(toks) && toks != [] && ip + len <= |inp|
    requires len >= 3 && 1 <= off <= ip && off <= M4_MAX_OFFSET && (off > M2_MAX_OFFSET ==> len >= 4)
    requires forall k :: ip <= k < ip + len ==> inp[k] == inp[k - off]
    ensures InRange(FormFor(len, off), len, off)
    ensures Between(inp, ip + len, op + MatchHead(FormFor(len, off), len, off, 0),
                    toks + [Match(FormFor(len, off), len, off, [])])
  {
    hide MatchHead, Wrote, Copy;
    var tok := Match(FormFor(len, off), len, off, []);
    MatchSaves(len, off);
    CopyUnique(inp, ip, off, len);
    assert Apply(inp[..ip], tok) == inp[..ip + len];
    assert Enc(tok) == MatchHead(FormFor(len, off), len, off, 0);
    WroteToken(inp, ip, op, toks, tok, ip + len);
    assert Wrote(inp, ip + len, op + MatchHead(FormFor(len, off), len, off, 0), toks + [tok]);
    WroteIsWellFormed(inp, ip + len, op + Enc(tok), toks + [tok]);
    WroteIsWellFormed(inp, ip, op, toks);
  }

  lemma WroteIsWellFormed(inp: seq<Byte>, ii: nat, op: seq<Byte>, toks: seq<Token>)
    requires Wrote(inp, ii, op, toks)
    ensures AllWellFormed(toks)
  {
  }

  /** Store the pending literals and the match that follows them. */
  method EmitMatch(inp: seq<Byte>, ii: nat, ip: nat, off: nat, len: nat, op: seq<Byte>, ghost toks: seq<Token>)
    returns (op': seq<Byte>, ghost toks': seq<Token>)
    requires Between(inp, ii, op, toks) && ii <= ip && ip + len <= |inp| && (ii == 0 ==> ip >= 4)
    requires len >= 3 && 1 <= off <= ip && off <= M4_MAX_OFFSET && (off > M2_MAX_OFFSET ==> len >= 4)
    requires forall k :: ip <= k < ip + len ==> inp[k] == inp[k - off]
    ensures Between(inp, ip + len, op', toks')
    ensures InRange(FormFor(len, off), len, off)
    ensures |op'| == |op| + (ip - ii) + (if ip - ii > 3 then |RunHead(ip - ii)| else 0) + |MatchHead(FormFor(len, off), len, off, 0)|
  {
    hide Wrote, MatchHead, Enc, Thrifty, RunHead;
    WroteIsWellFormed(inp, ii, op, toks);
    ghost var mid := toks;
    op' := op;
    if ip > ii {
      op', mid := StoreRun(op, inp, ii, ip - ii, false, toks);
      RunKeepsThrift(toks, inp[ii..ip]);
    }
    MatchWrote(inp, ip, op', mid, len, off);
    op' := PutMatch(op', len, off);
    toks' := mid + [Match(FormFor(len, off), len, off, [])];
  }

  // ---------- a law of the whole: rows of equal bytes ----------

  /** In a row of equal bytes, every entry in reach is a match. */
  lemma UniformMatch(inp: seq<Byte>, ip: nat, off: nat)
    requires Uniform(inp) && ip + 4 <= |inp| && 1 <= off <= ip <= 5
    ensures Candidate(inp, ip, off) && off <= 0x800
  {
  }

  lemma UniformIndex(inp: seq<Byte>, ip: nat, size: nat)
    requires Uniform(inp) && 4 <= ip && ip + 4 <= |inp| && size >= 1
    ensures Index1(inp, ip, size) == Index1(inp, 4, size)
  {
    hide Mix, Scale;
    var x := inp[0];
    assert inp[ip] == x && inp[ip + 1] == x && inp[ip + 2] == x && inp[ip + 3] == x;
    assert inp[4] == x && inp[5] == x && inp[6] == x && inp[7] == x;
  }

  lemma UniformLength(inp: seq<Byte>, ip: nat, off: nat, len: nat)
    requires Uniform(inp) && 1 <= off <= ip && ip + len <= |inp| && (ip + len == |inp| || inp[ip + len] != inp[ip + len - off])
    ensures ip + len == |inp|
  {
  }

  /** Where the search is in a row of equal bytes: at the first position, at the second with the first one in the dictionary,
      or at the end, with five or six bytes for the literals and one match behind it. */
  ghost predicate OnRow(inp: seq<Byte>, ip: nat, ii: nat, op: seq<Byte>, dict: seq<int>) {
    || (ip == 4 && ii == 0 && op == [])
    || (ip == 5 && ii == 0 && op == [] && |inp| >= 8 && 2 <= |dict| && dict[Index1(inp, 4, |dict|)] == 4)
    || (ip == ii == |inp| && |op| <= 10 + |inp| / 255)
  }

  /** Nothing is found only at the first position, and then the next one finds the entry that is made here. */
  lemma MissOnRow(inp: seq<Byte>, ip: nat, ii: nat, op: seq<Byte>, before: seq<int>, dict: seq<int>, dindex: nat)
    requires Uniform(inp) && |inp| >= 19 && ip + 9 <= |inp| && OnRow(inp, ip, ii, op, before) && 2 <= |before| <= 0x10000
    requires var e := before[Index1(inp, ip, |before|)]; var m := Distance(e, ip);
             if Reachable(e, ip) then m > 0x800 || !Candidate(inp, ip, m) else dindex == Index1(inp, ip, |before|) && dict == before[dindex := ip]
    ensures ip == 4 && OnRow(inp, ip + 1, ii, op, dict)
  {
    hide Index1;
    UniformIndex(inp, 5, |before|);
    var e := before[Index1(inp, ip, |before|)];
    if ip == 5 { assert Distance(4, 5) == 1; }
    if Reachable(e, ip) { UniformMatch(inp, ip, Distance(e, ip)); }
  }

  /** A match takes all that is left. */
  lemma HitOnRow(inp: seq<Byte>, ip: nat, ii: nat, op: seq<Byte>, dict: seq<int>, off: nat, len: nat)
    requires Uniform(inp) && |inp| >= 19 && ip + 9 <= |inp| && OnRow(inp, ip, ii, op, dict) && Candidate(inp, ip, off)
    requires ip + len <= |inp| && (ip + len == |inp| || inp[ip + len] != inp[ip + len - off])
    ensures ip + len == |inp| && InRange(FormFor(len, off), len, off)
    ensures |op| + (ip - ii) + (if ip - ii > 3 then |RunHead(ip - ii)| else 0) + |MatchHead(FormFor(len, off), len, off, 0)| <= 10 + |inp| / 255
  {
    hide Index1, Uniform, MatchHead;
    UniformLength(inp, ip, off, len);
    RowHead(|inp|, len, off);
  }

  lemma RowStart(inp: seq<Byte>, dict: seq<int>)
    ensures OnRow(inp, 4, 0, [], dict)
  {
  }

  lemma RowLeft(inp: seq<Byte>, ip: nat, ii: nat, op: seq<Byte>, dict: seq<int>)
    requires |inp| >= 19 && OnRow(inp, ip, ii, op, dict) && ip >= |inp| - M2_MAX_LEN - 5
    ensures ii == |inp| && |op| <= 10 + |inp| / 255
  {
    hide Index1;
  }

  lemma RowEnd(inp: seq<Byte>, ip: nat, op: seq<Byte>, dict: seq<int>)
    ensures ip == |inp| && |op| <= 10 + |inp| / 255 ==> OnRow(inp, ip, ip, op, dict)
  {
  }

  lemma RowHead(n: nat, len: nat, off: nat)
    requires n >= 19 && n - 5 <= len <= n - 4 && 1 <= off <= 0x800
    ensures InRange(FormFor(len, off), len, off) && |MatchHead(FormFor(len, off), len, off, 0)| <= 4 + n / 255
  {
  }

  /** do_compress: the main loop.  The last ip_end..in_end bytes are never searched. */
  method DoCompress(inp: seq<Byte>, dict: array<int>) returns (op: seq<Byte>, ii: nat, ghost toks: seq<Token>)
    requires |inp| > M2_MAX_LEN + 5 && 2 <= dict.Length <= 0x10000
    modifies dict
    ensures Between(inp, ii, op, toks)
    ensures Uniform(inp) && |inp| >= 19 ==> ii == |inp| && |op| <= 10 + |inp| / 255
  {
    hide Wrote, Thrifty, Candidate, Uniform, OnRow, Between, Index1, Index2, Reachable, Distance;
    var ipEnd := |inp| - M2_MAX_LEN - 5;
    var ip := 4;
    op, ii, toks := [], 0, [];
    EmptyBetween(inp);
    RowStart(inp, dict[..]);
    while true
      invariant Between(inp, ii, op, toks) && ii <= ip <= |inp| && ip + 9 <= |inp| && (ii == 0 ==> ip >= 4)
      invariant Uniform(inp) && |inp| >= 19 ==> OnRow(inp, ip, ii, op, dict[..])
      decreases |inp| - ip
    {
      ghost var before := dict[..];
      var found, off, dindex := Probe(inp, ip, dict);
      dict[dindex] := ip;
      if !found {
        if Uniform(inp) && |inp| >= 19 { MissOnRow(inp, ip, ii, op, before, dict[..], dindex); }
        ip := ip + 1;
      } else {
        CandidateRange(inp, ip, off);
        var len := MatchLength(inp, ip, off);
        if Uniform(inp) && |inp| >= 19 { HitOnRow(inp, ip, ii, op, before, off, len); }
        op, toks := EmitMatch(inp, ii, ip, off, len, op, toks);
        ip := ip + len;
        ii := ip;
        assert Uniform(inp) && |inp| >= 19 ==> OnRow(inp, ip, ii, op, dict[..]) by { RowEnd(inp, ip, op, dict[..]); }
      }
      if ip >= ipEnd {
        if Uniform(inp) && |inp| >= 19 { RowLeft(inp, ip, ii, op, dict[..]); }
        break;
      }
    }
  }

  lemma EmptyBetween(inp: seq<Byte>)
    ensures Between(inp, 0, [], [])
  {
  }

  lemma CandidateRange(inp: seq<Byte>, ip: nat, off: nat)
    requires Candidate(inp, ip, off)
    ensures 1 <= off <= ip && off <= M4_MAX_OFFSET
  {
  }

  /** DO_COMPRESS, for LZO1X-1 (2^14 entries) and LZO1X-1(15) (2^15 entries). */
  method Compress(inp: seq<Byte>, dict: array<int>) returns (op: seq<Byte>, ghost toks: seq<Token>)
    requires 2 <= dict.Length <= 0x10000
    modifies dict
    ensures Encodes(toks, inp) && AllWellFormed(toks) && Thrifty(toks) && op == EncAll(toks) + EOF_MARK
    ensures Decompress(op, |inp|) == Outcome(OK, inp)
    ensures |op| <= MaxCompressedSize(|inp|) && LeanBlock(op, |inp|)
    ensures |inp| >= 19 && (forall i :: 0 <= i < |inp| ==> inp[i] == inp[0]) ==> |op| <= 13 + |inp| / 255
  {
    hide Wrote, Thrifty, LeanBlock, Encodes, Decompress, EncAll, RunTokens, RunHead, WellFormed, MaxCompressedSize;
    var ii := 0;
    op, toks := [], [];
    EmptyBetween(inp);
    if |inp| > M2_MAX_LEN + 5 {
      op, ii, toks := DoCompress(inp, dict);
    }
    var t := |inp| - ii;
    NothingWritten(inp, ii, op, toks);
    if t > 0 {
      var opening := op == [] && t <= 238;
      if opening { OpeningThrift(toks, inp[ii..ii + t]); } else { RunKeepsThrift(toks, inp[ii..ii + t]); }
      op, toks := StoreRun(op, inp, ii, t, opening, toks);
    }
    Finish(inp, op, toks);
    op := op + [16 + 1] + [0] + [0];
  }

  lemma NothingWritten(inp: seq<Byte>, ii: nat, op: seq<Byte>, toks: seq<Token>)
    requires Between(inp, ii, op, toks)
    ensures AllWellFormed(toks) && ii <= |inp| && (op == [] <==> toks == [])
  {
    hide Head;
    if toks != [] {
      assert Enc(toks[0]) <= op;
      assert |Enc(toks[0])| > 0 by { HeadNotEmpty(toks[0]); }
    }
  }

  lemma HeadNotEmpty(tok: Token)
    requires WellFormed(tok)
    ensures |Head(tok)| >= 1
  {
  }

  lemma OpeningThrift(toks: seq<Token>, lits: seq<Byte>)
    requires toks == [] && 1 <= |lits| <= 238
    ensures var r := RunTokens(toks, lits, true); AllWellFormed(r) && Thrifty(r)
  {
  }

  lemma Finish(inp: seq<Byte>, op: seq<Byte>, toks: seq<Token>)
    requires Wrote(inp, |inp|, op, toks) && AllWellFormed(toks) && Thrifty(toks)
    ensures Encodes(toks, inp)
    ensures op + EOF_MARK == EncAll(toks) + EOF_MARK
    ensures Decompress(op + EOF_MARK, |inp|) == Outcome(OK, inp)
    ensures |op + EOF_MARK| <= MaxCompressedSize(|inp|) && LeanBlock(op + EOF_MARK, |inp|)
  {
    hide LeanBlock, Thrifty, Frugal;
    assert inp[..|inp|] == inp;
    DecompressStream(toks, inp, |inp|);
    ExpansionBound(toks, inp);
    ThriftyIsFrugal(Start, toks);
    WrittenIsLean(toks, inp);
  }
}
