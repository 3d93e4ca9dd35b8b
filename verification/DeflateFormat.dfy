/** The compressed data format of RFC 1951, read from a string of bits: what an inflater does. */
module DeflateFormat {
  import opened Arithmetic
  import opened Bytes
  import opened BitSeq
  import opened HuffmanCodes

  datatype Token = Lit(b: Byte) | Ref(len: nat, dist: nat)

  /** The result of reading: a value and the bits that follow. */
  datatype Parsed<T> = Bad | Got(value: T, rest: seq<Bit>)

  const END_BLOCK := 256
  const L_CODES := 286
  const D_CODES := 30
  const BL_CODES := 19

  // ---------- the tables of section 3.2.5 ----------

  const LENGTH_EXTRA: seq<nat> :=
    [0, 0, 0, 0, 0, 0, 0, 0, 1, 1, 1, 1, 2, 2, 2, 2, 3, 3, 3, 3, 4, 4, 4, 4, 5, 5, 5, 5, 0]
  const LENGTH_BASE: seq<nat> :=
    [3, 4, 5, 6, 7, 8, 9, 10, 11, 13, 15, 17, 19, 23, 27, 31, 35, 43, 51, 59, 67, 83, 99, 115, 131, 163, 195, 227, 258]
  const DIST_EXTRA: seq<nat> :=
    [0, 0, 0, 0, 1, 1, 2, 2, 3, 3, 4, 4, 5, 5, 6, 6, 7, 7, 8, 8, 9, 9, 10, 10, 11, 11, 12, 12, 13, 13]
  const DIST_BASE: seq<nat> :=
    [1, 2, 3, 4, 5, 7, 9, 13, 17, 25, 33, 49, 65, 97, 129, 193, 257, 385, 513, 769, 1025, 1537, 2049, 3073,
     4097, 6145, 8193, 12289, 16385, 24577]

  // ---------- reading numbers and symbols ----------

  function ReadBits(next: seq<Bit>, n: nat): (r: Parsed<nat>)
    ensures r.Got? ==> |r.rest| + n == |next|
  {
    if |next| < n then Bad else Got(Number(next[..n]), next[n..])
  }

  function ReadSymbol(lens: seq<nat>, next: seq<Bit>): (r: Parsed<nat>)
    ensures r.Got? ==> HasCode(lens, r.value) && |r.rest| + lens[r.value] == |next|
  {
    match FindSymbol(lens, next, 0)
    case None => Bad
    case Some(n) => Got(n, next[lens[n]..])
  }

  lemma {:induction false} BitsBack(v: nat, n: nat, rest: seq<Bit>)
    requires v < Pow2(n)
    ensures ReadBits(LowBits(v, n) + rest, n) == Got(v, rest)
  {
    NumberOfLowBits(v, n);
    assert (LowBits(v, n) + rest)[..n] == LowBits(v, n);
    assert (LowBits(v, n) + rest)[n..] == rest;
  }

  lemma {:induction false} SymbolBack(lens: seq<nat>, n: nat, rest: seq<Bit>)
    requires CodeLens(lens) && HasCode(lens, n)
    ensures ReadSymbol(lens, CodeSeq(lens, n) + rest) == Got(n, rest)
  {
    hide CodeLens, CodeSeq;
    SymbolRead(lens, CodeSeq(lens, n) + rest, n);
    assert (CodeSeq(lens, n) + rest)[lens[n]..] == rest;
  }

  // ---------- tokens ----------

  /** A literal, a match, or (None) the end of the block. */
  function ReadToken(ll: seq<nat>, dl: seq<nat>, next: seq<Bit>): (r: Parsed<Option<Token>>)
    ensures r.Got? ==> |r.rest| < |next|
  {
    var s := ReadSymbol(ll, next);
    if s.Bad? then Bad
    else if s.value < 256 then Got(Some(Lit(s.value)), s.rest)
    else if s.value == END_BLOCK then Got(None, s.rest)
    else if s.value >= L_CODES then Bad
    else ReadMatch(dl, s.value - 257, s.rest)
  }

  function ReadMatch(dl: seq<nat>, c: nat, next: seq<Bit>): (r: Parsed<Option<Token>>)
    requires c < 29
    ensures r.Got? ==> |r.rest| <= |next|
  {
    var x := ReadBits(next, LENGTH_EXTRA[c]);
    if x.Bad? then Bad
    else
      var e := ReadSymbol(dl, x.rest);
      if e.Bad? || e.value >= D_CODES then Bad
      else
        var y := ReadBits(e.rest, DIST_EXTRA[e.value]);
        if y.Bad? then Bad else Got(Some(Ref(LENGTH_BASE[c] + x.value, DIST_BASE[e.value] + y.value)), y.rest)
  }

  /** The tokens up to the end of the block. */
  function ReadTokens(ll: seq<nat>, dl: seq<nat>, next: seq<Bit>): (r: Parsed<seq<Token>>)
    ensures r.Got? ==> |r.rest| <= |next|
    decreases |next|
  {
    var t := ReadToken(ll, dl, next);
    if t.Bad? then Bad
    else if t.value.None? then Got([], t.rest)
    else
      var more := ReadTokens(ll, dl, t.rest);
      if more.Bad? then Bad else Got([t.value.value] + more.value, more.rest)
  }

  // ---------- what tokens stand for ----------

  predicate Fits(out: seq<Byte>, t: Token) {
    t.Lit? || 1 <= t.dist <= |out|
  }

  function Apply(out: seq<Byte>, t: Token): (r: seq<Byte>)
    requires Fits(out, t)
  {
    match t
    case Lit(b) => out + [b]
    case Ref(len, dist) => Copy(out, dist, len)
  }

  predicate Playable(out: seq<Byte>, toks: seq<Token>)
    decreases |toks|
  {
    toks == [] || (Fits(out, toks[0]) && Playable(Apply(out, toks[0]), toks[1..]))
  }

  function Play(out: seq<Byte>, toks: seq<Token>): (r: seq<Byte>)
    requires Playable(out, toks)
    decreases |toks|
  {
    if toks == [] then out else Play(Apply(out, toks[0]), toks[1..])
  }

  lemma {:induction false} PlayAppend(out: seq<Byte>, a: seq<Token>, b: seq<Token>)
    ensures Playable(out, a + b) <==> Playable(out, a) && Playable(Play(out, a), b)
    ensures Playable(out, a + b) ==> Play(out, a + b) == Play(Play(out, a), b)
    decreases |a|
  {
    if a == [] {
      assert a + b == b;
    } else {
      assert (a + b)[1..] == a[1..] + b;
      if Fits(out, a[0]) { PlayAppend(Apply(out, a[0]), a[1..], b); }
    }
  }

  lemma {:induction false} PlayOne(out: seq<Byte>, toks: seq<Token>, t: Token)
    requires Playable(out, toks) && Fits(Play(out, toks), t)
    ensures Playable(out, toks + [t]) && Play(out, toks + [t]) == Apply(Play(out, toks), t)
  {
    hide Apply;
    PlayAppend(out, toks, [t]);
    assert [t][1..] == [];
    assert Playable(Apply(Play(out, toks), t), []);
  }

  // ---------- code lengths (section 3.2.7) ----------

  const BL_ORDER: seq<nat> := [16, 17, 18, 0, 8, 7, 9, 6, 10, 5, 11, 4, 12, 3, 13, 2, 14, 1, 15]

  /** The lengths of the first n codes in BL_ORDER, from the k-th on. */
  function ReadOrder(next: seq<Bit>, k: nat, n: nat, cl: seq<nat>): (r: Parsed<seq<nat>>)
    requires k <= n <= BL_CODES && |cl| == BL_CODES
    ensures r.Got? ==> |r.rest| <= |next|
    decreases n - k
  {
    if k == n then Got(cl, next)
    else
      var x := ReadBits(next, 3);
      if x.Bad? then Bad else ReadOrder(x.rest, k + 1, n, cl[BL_ORDER[k] := x.value])
  }

  function Times(x: nat, n: nat): (r: seq<nat>)
    ensures |r| == n && forall i :: 0 <= i < n ==> r[i] == x
  {
    seq(n, _ => x)
  }

  /** The next lengths: one, or a repetition. */
  function ReadRun(cl: seq<nat>, next: seq<Bit>, acc: seq<nat>): (r: Parsed<seq<nat>>)
    ensures r.Got? ==> |r.rest| < |next|
  {
    var s := ReadSymbol(cl, next);
    if s.Bad? then Bad
    else if s.value < 16 then Got(acc + [s.value], s.rest)
    else if s.value == 16 then
      var x := ReadBits(s.rest, 2);
      if x.Bad? || acc == [] then Bad else Got(acc + Times(acc[|acc| - 1], 3 + x.value), x.rest)
    else if s.value == 17 then
      var x := ReadBits(s.rest, 3);
      if x.Bad? then Bad else Got(acc + Times(0, 3 + x.value), x.rest)
    else
      var x := ReadBits(s.rest, 7);
      if x.Bad? then Bad else Got(acc + Times(0, 11 + x.value), x.rest)
  }

  /** Lengths until there are n of them. */
  function ReadLengths(cl: seq<nat>, n: nat, next: seq<Bit>, acc: seq<nat>): (r: Parsed<seq<nat>>)
    ensures r.Got? ==> |r.value| == n && |r.rest| <= |next|
    decreases |next|
  {
    if |acc| == n then Got(acc, next)
    else if |acc| > n then Bad
    else
      var more := ReadRun(cl, next, acc);
      if more.Bad? then Bad else ReadLengths(cl, n, more.rest, more.value)
  }

  /** The two codes of a dynamic block. */
  datatype Trees = Trees(ll: seq<nat>, dl: seq<nat>)

  /** Strictly: there are no more symbols than the format has, all three codes are complete, and there is a code for the
      end of the block. */
  function ReadTrees(next: seq<Bit>): (r: Parsed<Trees>)
    ensures r.Got? ==> |r.rest| <= |next|
  {
    if |next| < 14 then Bad
    else
      var lit, dist, n := 257 + Number(next[..5]), 1 + Number(next[5..10]), 4 + Number(next[10..14]);
      if n > BL_CODES || lit > 286 || dist > 30 then Bad
      else
        var cl := ReadOrder(next[14..], 0, n, Times(0, BL_CODES));
        if cl.Bad? || !CompleteCode(cl.value) then Bad
        else
          var lens := ReadLengths(cl.value, lit + dist, cl.rest, []);
          if lens.Bad? then Bad
          else
            var ll, dl := lens.value[..lit], lens.value[lit..];
            if ll[END_BLOCK] == 0 || !CompleteCode(ll) || !CompleteCode(dl) then Bad else Got(Trees(ll, dl), lens.rest)
  }

  // ---------- blocks (sections 3.2.3 to 3.2.7) ----------

  /** The fixed code for literals and lengths. */
  const FIXED_LIT: seq<nat> := Times(8, 144) + Times(9, 112) + Times(7, 24) + Times(8, 8)
  /** The fixed code for distances. */
  const FIXED_DIST: seq<nat> := Times(5, 32)

  function ReadBytes(next: seq<Bit>, n: nat): (r: Parsed<seq<Byte>>)
    ensures r.Got? ==> |r.rest| <= |next|
    decreases n
  {
    if n == 0 then Got([], next)
    else if |next| < 8 then Bad
    else
      var more := ReadBytes(next[8..], n - 1);
      ByteRange(next[..8]);
      if more.Bad? then Bad else Got([Number(next[..8])] + more.value, more.rest)
  }

  lemma {:induction false} NumberFits(s: seq<Bit>)
    ensures Number(s) < Pow2(|s|)
    decreases |s|
  {
    if s != [] { NumberFits(s[1..]); }
  }

  lemma ByteRange(s: seq<Bit>)
    requires |s| == 8
    ensures Number(s) < 256
  {
    NumberFits(s);
    assert Pow2(4) == 16;
    Pow2Add(4, 4);
  }

  /** A stored block: from the next byte boundary on.  The input consists of whole bytes, so the boundary is
      where the number of remaining bits is a multiple of 8. */
  function ReadStored(next: seq<Bit>): (r: Parsed<seq<Byte>>)
    ensures r.Got? ==> |r.rest| <= |next|
  {
    var at := next[|next| % 8..];
    var len := ReadBits(at, 16);
    if len.Bad? then Bad
    else
      var nlen := ReadBits(len.rest, 16);
      if nlen.Bad? || nlen.value != 0xffff - len.value then Bad else ReadBytes(nlen.rest, len.value)
  }

  function PlayParsed(out: seq<Byte>, toks: Parsed<seq<Token>>): (r: Parsed<seq<Byte>>)
    ensures r.Got? ==> toks.Got? && r.rest == toks.rest
  {
    if toks.Bad? || !Playable(out, toks.value) then Bad else Got(Play(out, toks.value), toks.rest)
  }

  /** One block after its header: what the output is then. */
  function ReadBlock(kind: nat, next: seq<Bit>, out: seq<Byte>): (r: Parsed<seq<Byte>>)
    ensures r.Got? ==> |r.rest| <= |next|
  {
    if kind == 0 then
      var s := ReadStored(next);
      if s.Bad? then Bad else Got(out + s.value, s.rest)
    else if kind == 1 then PlayParsed(out, ReadTokens(FIXED_LIT, FIXED_DIST, next))
    else if kind == 2 then
      var t := ReadTrees(next);
      if t.Bad? then Bad else PlayParsed(out, ReadTokens(t.value.ll, t.value.dl, t.rest))
    else Bad
  }

  /** All blocks up to the one that is marked as the last. */
  function Inflate(next: seq<Bit>, out: seq<Byte>): (r: Parsed<seq<Byte>>)
    decreases |next|
  {
    if |next| < 3 then Bad
    else
      var b := ReadBlock(Number(next[1..3]), next[3..], out);
      if b.Bad? then Bad else if next[0] then b else Inflate(b.rest, b.value)
  }
}
