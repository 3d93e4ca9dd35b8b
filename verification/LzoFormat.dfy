/** The LZO1X byte grammar: tokens, their encoding, and what they mean.

    A stream is a sequence of tokens followed by an end marker.  A token is either
    a literal run or a match with up to three trailing literals; the number of
    trailing literals lives in the two low bits of a byte of the match. */
module LzoFormat {
  import opened Bytes

  const M2_MAX_LEN := 8
  const M3_MAX_LEN := 33
  const M4_MAX_LEN := 9
  const M1_MAX_OFFSET := 0x0400
  const M2_MAX_OFFSET := 0x0800
  const MX_MAX_OFFSET := 0x0c00
  const M3_MAX_OFFSET := 0x4000
  const M4_MAX_OFFSET := 0xbfff

  datatype Form = M1 | M1Far | M2 | M3 | M4

  datatype Token =
    | First(lits: seq<Byte>)
    | Run(lits: seq<Byte>)
    | Match(form: Form, len: nat, off: nat, lits: seq<Byte>)

  /** What came just before: nothing, a match without trailing literals, one to
      three literals, or at least four.  It decides what an opcode below 16 means. */
  datatype Context = Start | AfterMatch | AfterShort | AfterRun

  predicate InRange(form: Form, len: nat, off: nat) {
    match form
    case M1 => len == 2 && 1 <= off <= M1_MAX_OFFSET
    case M1Far => len == 3 && M2_MAX_OFFSET < off <= MX_MAX_OFFSET
    case M2 => 3 <= len <= M2_MAX_LEN && 1 <= off <= M2_MAX_OFFSET
    case M3 => 3 <= len && 1 <= off <= M3_MAX_OFFSET
    case M4 => 3 <= len && M3_MAX_OFFSET < off <= M4_MAX_OFFSET
  }

  predicate Allowed(ctx: Context, form: Form) {
    match form
    case M1 => ctx == AfterShort
    case M1Far => ctx == AfterRun
    case _ => ctx != Start
  }

  predicate WellFormed(tok: Token) {
    match tok
    case First(lits) => 1 <= |lits| <= 238
    case Run(lits) => 4 <= |lits|
    case Match(form, len, off, lits) => |lits| <= 3 && InRange(form, len, off)
  }

  predicate Valid(ctx: Context, tok: Token) {
    && WellFormed(tok)
    && match tok
       case First(_) => ctx == Start
       case Run(_) => ctx == Start || ctx == AfterMatch
       case Match(form, _, _, _) => Allowed(ctx, form)
  }

  function Next(tok: Token): Context {
    match tok
    case First(lits) => if |lits| < 4 then AfterShort else AfterRun
    case Run(_) => AfterRun
    case Match(_, _, _, lits) => if lits == [] then AfterMatch else AfterShort
  }

  predicate Legal(ctx: Context, toks: seq<Token>)
    decreases |toks|
  {
    toks == [] || (Valid(ctx, toks[0]) && Legal(Next(toks[0]), toks[1..]))
  }

  function End(ctx: Context, toks: seq<Token>): Context {
    if toks == [] then ctx else Next(toks[|toks| - 1])
  }

  lemma {:induction false} LegalAppend(ctx: Context, a: seq<Token>, b: seq<Token>)
    ensures Legal(ctx, a + b) <==> Legal(ctx, a) && Legal(End(ctx, a), b)
    decreases |a|
  {
    if a == [] {
      assert a + b == b;
    } else {
      assert (a + b)[1..] == a[1..] + b;
      LegalAppend(Next(a[0]), a[1..], b);
    }
  }

  // ---------- encoding ----------

  /** A count of at least one as a row of zero bytes (255 each) and a last nonzero byte. */
  function Ext(n: nat): (s: seq<Byte>)
    requires n >= 1
    ensures |s| == 1 + (n - 1) / 255
  {
    if n <= 255 then [n] else [0] + Ext(n - 255)
  }

  function RunHead(n: nat): (s: seq<Byte>)
    requires n >= 4
  {
    if n <= 18 then [n - 3] else [0] + Ext(n - 18)
  }

  function LenHead(marker: Byte, max: nat, len: nat): (s: seq<Byte>)
    requires len >= 3 && max >= 3 && marker + max < 256
  {
    if len <= max then [marker + (len - 2)] else [marker] + Ext(len - max)
  }

  /** The distance field: what is left of the distance after the form's own base is taken off. */
  function Field(form: Form, off: nat): (d: nat)
    requires off >= (match form case M1Far => M2_MAX_OFFSET + 1 case M4 => 0x4000 case _ => 1)
  {
    match form
    case M1Far => off - 1 - M2_MAX_OFFSET
    case M4 => off - 0x4000
    case _ => off - 1
  }

  /** The bytes of a match opcode before its last two: empty for the two-byte forms. */
  function Prefix(form: Form, len: nat, off: nat): (s: seq<Byte>)
    requires InRange(form, len, off)
  {
    match form
    case M3 => LenHead(32, M3_MAX_LEN, len)
    case M4 => LenHead(16 + Field(M4, off) / 0x4000 * 8, M4_MAX_LEN, len)
    case _ => []
  }

  /** The last but one byte of a match opcode, before the literal count goes into its two low bits. */
  function Low(form: Form, len: nat, off: nat): (b: Byte)
    requires InRange(form, len, off)
    ensures b % 4 == 0
  {
    var d := Field(form, off);
    match form
    case M1 => d % 4 * 4
    case M1Far => d % 4 * 4
    case M2 => (len - 1) * 32 + d % 8 * 4
    case _ => d % 64 * 4
  }

  function High(form: Form, len: nat, off: nat): (b: Byte)
    requires InRange(form, len, off)
  {
    var d := Field(form, off);
    match form
    case M1 => d / 4
    case M1Far => d / 4
    case M2 => d / 8
    case _ => d % 0x4000 / 64
  }

  function MatchHead(form: Form, len: nat, off: nat, t: nat): (s: seq<Byte>)
    requires t < 4 && InRange(form, len, off)
    ensures |s| == |Prefix(form, len, off)| + 2
  {
    Prefix(form, len, off) + [Low(form, len, off) + t, High(form, len, off)]
  }

  function Head(tok: Token): (s: seq<Byte>)
    requires WellFormed(tok)
  {
    match tok
    case First(lits) => [17 + |lits|]
    case Run(lits) => RunHead(|lits|)
    case Match(form, len, off, lits) => MatchHead(form, len, off, |lits|)
  }

  function Enc(tok: Token): (s: seq<Byte>)
    requires WellFormed(tok)
  {
    Head(tok) + tok.lits
  }

  predicate AllWellFormed(toks: seq<Token>) {
    forall i :: 0 <= i < |toks| ==> WellFormed(toks[i])
  }

  function EncAll(toks: seq<Token>): (s: seq<Byte>)
    requires AllWellFormed(toks)
  {
    if toks == [] then [] else Enc(toks[0]) + EncAll(toks[1..])
  }

  const EOF_MARK: seq<Byte> := [17, 0, 0]

  lemma {:induction false} LegalWellFormed(ctx: Context, toks: seq<Token>)
    requires Legal(ctx, toks)
    ensures AllWellFormed(toks)
    decreases |toks|
  {
    if toks != [] {
      LegalWellFormed(Next(toks[0]), toks[1..]);
      forall i | 0 <= i < |toks| ensures WellFormed(toks[i]) {
        if i > 0 { assert toks[i] == toks[1..][i - 1]; }
      }
    }
  }

  lemma {:induction false} EncAppend(a: seq<Token>, b: seq<Token>)
    requires AllWellFormed(a) && AllWellFormed(b)
    ensures AllWellFormed(a + b) && EncAll(a + b) == EncAll(a) + EncAll(b)
  {
    if a == [] {
      assert a + b == b;
    } else {
      assert (a + b)[1..] == a[1..] + b;
      EncAppend(a[1..], b);
    }
  }

  /** The trailing literal count can be patched into a match that was coded without literals:
      only the byte two before the end of the head changes. */
  lemma {:induction false} PatchMatch(form: Form, len: nat, off: nat, t: nat)
    requires t < 4 && InRange(form, len, off)
    ensures var h0, h := MatchHead(form, len, off, 0), MatchHead(form, len, off, t);
            |h| == |h0| && h == h0[|h0| - 2 := OrLow2(h0[|h0| - 2], t)]
  {
  }

  // ---------- meaning ----------

  predicate Fits(out: seq<Byte>, tok: Token) {
    tok.Match? ==> 1 <= tok.off <= |out|
  }

  function Apply(out: seq<Byte>, tok: Token): (r: seq<Byte>)
    requires Fits(out, tok)
    ensures |out| <= |r|
  {
    match tok
    case First(lits) => out + lits
    case Run(lits) => out + lits
    case Match(_, len, off, lits) => Copy(out, off, len) + lits
  }

  predicate Playable(out: seq<Byte>, toks: seq<Token>)
    decreases |toks|
  {
    toks == [] || (Fits(out, toks[0]) && Playable(Apply(out, toks[0]), toks[1..]))
  }

  /** The bytes a token sequence stands for, appended to what is already out. */
  function Play(out: seq<Byte>, toks: seq<Token>): (r: seq<Byte>)
    requires Playable(out, toks)
    ensures |out| <= |r|
    decreases |toks|
  {
    if toks == [] then out else Play(Apply(out, toks[0]), toks[1..])
  }

  lemma {:induction false} PlayAppend(out: seq<Byte>, a: seq<Token>, b: seq<Token>)
    ensures Playable(out, a + b) <==> Playable(out, a) && Playable(Play(out, a), b)
    ensures Playable(out, a + b) ==> Play(out, a + b) == Play(Play(out, a), b)
    decreases |a|
  {
    if a == [] {
      assert a + b == b;
    } else {
      assert (a + b)[1..] == a[1..] + b;
      if Fits(out, a[0]) { PlayAppend(Apply(out, a[0]), a[1..], b); }
    }
  }

  /** A complete stream for `data`: legal tokens that play to it. */
  predicate Encodes(toks: seq<Token>, data: seq<Byte>) {
    Legal(Start, toks) && Playable([], toks) && Play([], toks) == data
  }
}
