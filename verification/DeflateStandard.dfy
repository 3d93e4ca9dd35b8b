/** What RFC 1951 says of the bits themselves: the tables in closed form, the places of the fields in a header, and the
    meaning of the block types, with the numbers of the standard written out. */
module DeflateStandard {
  import opened Arithmetic
  import opened Bytes
  import opened BitSeq
  import opened HuffmanGen
  import opened HuffmanLengths
  import opened HuffmanCodes
  import opened DeflateFormat
  import opened DeflateTokens
  import opened DeflateRuns
  import opened DeflateTrees
  import opened DeflateHeader
  import opened DeflateTables
  import opened BitWriter
  import opened DeflateBlocks

  // ---------- bits ----------

  function Value(b: Bit): nat {
    if b then 1 else 0
  }

  /** Numbers are sent lowest bit first (section 3.1.1). */
  lemma {:induction false} NumberIs(s: seq<Bit>)
    ensures |s| == 2 ==> Number(s) == Value(s[0]) + 2 * Value(s[1])
    ensures |s| == 3 ==> Number(s) == Value(s[0]) + 2 * Value(s[1]) + 4 * Value(s[2])
    ensures |s| == 4 ==> Number(s) == Value(s[0]) + 2 * Value(s[1]) + 4 * Value(s[2]) + 8 * Value(s[3])
    ensures |s| == 5 ==> Number(s) == Value(s[0]) + 2 * Value(s[1]) + 4 * Value(s[2]) + 8 * Value(s[3]) + 16 * Value(s[4])
  {
    NumberTail(s);
    if |s| >= 1 { NumberTail(s[1..]); }
    if |s| >= 2 { NumberTail(s[2..]); assert s[1..][1..] == s[2..]; }
    if |s| >= 3 { NumberTail(s[3..]); assert s[2..][1..] == s[3..]; }
    if |s| >= 4 { NumberTail(s[4..]); assert s[3..][1..] == s[4..]; }
    if |s| >= 5 { NumberTail(s[5..]); assert s[4..][1..] == s[5..]; }
  }

  lemma NumberTail(s: seq<Bit>)
    ensures Number(s) == if s == [] then 0 else Value(s[0]) + 2 * Number(s[1..])
  {
  }

  /** Bit i of byte j, lowest bit first. */
  lemma {:induction false} ByteBits(s: seq<Byte>, j: nat, i: nat)
    requires j < |s| && i < 8
    ensures Value(BytesToBits(s)[8 * j + i]) == s[j] / Pow2(i) % 2
    decreases |s|
  {
    hide Pow2, LowBits;
    var n := |s| - 1;
    if j < n {
      ByteBits(s[..n], j, i);
    } else {
      LowBit(s[n] as nat, 8, i);
      assert BytesToBits(s)[8 * n + i] == LowBits(s[n] as nat, 8)[i];
    }
  }

  lemma {:induction false} LowBit(v: nat, n: nat, i: nat)
    requires i < n
    ensures Value(LowBits(v, n)[i]) == v / Pow2(i) % 2
    decreases n
  {
    if i > 0 {
      LowBit(v / 2, n - 1, i - 1);
      assert LowBits(v, n)[i] == LowBits(v / 2, n - 1)[i - 1];
      DivTwice(v, Pow2(i - 1));
    }
  }

  lemma DivTwice(v: nat, p: nat)
    requires p >= 1
    ensures v / 2 / p == v / (2 * p)
  {
    var h := v / 2;
    var q, r := h / p, h % p;
    assert h == q * p + r;
    assert v == q * (2 * p) + (2 * r + v % 2);
    Quotient(v, 2 * p, q, 2 * r + v % 2);
  }

  lemma Quotient(v: nat, p: nat, q: nat, r: nat)
    requires r < p && v == q * p + r
    ensures v / p == q
  {
    Remainder(v, p, q, r);
    var d := v / p - q;
    assert v / p * p == q * p + d * p;
    if d > 0 { Larger(d, p); }
    if d < 0 { Larger(-d, p); }
  }

  // ---------- the tables of section 3.2.5 in closed form ----------

  /** Four length codes for every number of extra bits from the ninth on; 258 has a code of its own. */
  lemma LengthTable(c: nat)
    requires c < 29
    ensures c < 8 ==> LENGTH_EXTRA[c] == 0 && LENGTH_BASE[c] == 3 + c
    ensures 8 <= c < 28 ==> LENGTH_EXTRA[c] == c / 4 - 1 && LENGTH_BASE[c] == 3 + (4 + c % 4) * Pow2(c / 4 - 1)
    ensures c == 28 ==> LENGTH_EXTRA[c] == 0 && LENGTH_BASE[c] == 258
  {
    hide Pow2;
    Powers();
    assert c == 0 || c == 1 || c == 2 || c == 3 || c == 4 || c == 5 || c == 6 || c == 7 || c == 8 || c == 9 || c == 10 || c == 11
        || c == 12 || c == 13 || c == 14 || c == 15 || c == 16 || c == 17 || c == 18 || c == 19 || c == 20 || c == 21 || c == 22
        || c == 23 || c == 24 || c == 25 || c == 26 || c == 27 || c == 28;
  }

  /** Two distance codes for every number of extra bits from the fifth on. */
  lemma DistanceTable(c: nat)
    requires c < 30
    ensures c < 4 ==> DIST_EXTRA[c] == 0 && DIST_BASE[c] == 1 + c
    ensures c >= 4 ==> DIST_EXTRA[c] == c / 2 - 1 && DIST_BASE[c] == 1 + (2 + c % 2) * Pow2(c / 2 - 1)
  {
    hide Pow2;
    Powers();
    assert c == 0 || c == 1 || c == 2 || c == 3 || c == 4 || c == 5 || c == 6 || c == 7 || c == 8 || c == 9 || c == 10 || c == 11
        || c == 12 || c == 13 || c == 14 || c == 15 || c == 16 || c == 17 || c == 18 || c == 19 || c == 20 || c == 21 || c == 22
        || c == 23 || c == 24 || c == 25 || c == 26 || c == 27 || c == 28 || c == 29;
  }

  // ---------- the fixed codes of section 3.2.6 ----------

  lemma {:induction false} FixedSame(n: nat)
    requires n <= 288
    ensures Same(FIXED_LIT, n, 8) == (if n <= 144 then n else if n <= 280 then 144 else n - 136)
    ensures Same(FIXED_LIT, n, 9) == (if n <= 144 then 0 else if n <= 256 then n - 144 else 112)
    ensures Same(FIXED_LIT, n, 7) == (if n <= 256 then 0 else if n <= 280 then n - 256 else 24)
    decreases n
  {
    if n > 0 { FixedSame(n - 1); }
  }

  /** Literals and lengths: 48 to 191 in eight bits, 400 to 511 in nine, 0 to 23 in seven, and 192 to 199 in eight. */
  lemma {:induction false} FixedCodes(n: nat)
    requires n < 288
    ensures HasCode(FIXED_LIT, n)
    ensures n < 144 ==> CodeSeq(FIXED_LIT, n) == CodeBits(48 + n, 8)
    ensures 144 <= n < 256 ==> CodeSeq(FIXED_LIT, n) == CodeBits(400 + (n - 144), 9)
    ensures 256 <= n < 280 ==> CodeSeq(FIXED_LIT, n) == CodeBits(n - 256, 7)
    ensures 280 <= n ==> CodeSeq(FIXED_LIT, n) == CodeBits(192 + (n - 280), 8)
  {
    hide CodeBits, Same;
    var bl := CountsOf(FIXED_LIT);
    FixedLitCounts(7);
    FixedLitCounts(8);
    FixedLitCounts(9);
    FixedFirst();
    FixedSame(n);
  }

  lemma {:induction false} FixedFirst()
    ensures var bl := CountsOf(FIXED_LIT); First(bl, 7) == 0 && First(bl, 8) == 48 && First(bl, 9) == 400
  {
    hide FIXED_LIT, Same;
    var bl := CountsOf(FIXED_LIT);
    forall b | 1 <= b <= 9 ensures bl[b] == if b == 7 then 24 else if b == 8 then 152 else if b == 9 then 112 else 0 { FixedLitCounts(b); }
    hide CountsOf;
    assert First(bl, 1) == 0;
    assert First(bl, 2) == 0;
    assert First(bl, 3) == 0;
    assert First(bl, 4) == 0;
    assert First(bl, 5) == 0;
    assert First(bl, 6) == 0;
    assert First(bl, 7) == 0;
    assert First(bl, 8) == 48;
  }

  /** Distances: five bits each. */
  lemma {:induction false} FixedDistances(n: nat)
    requires n < 30
    ensures HasCode(FIXED_DIST, n) && CodeSeq(FIXED_DIST, n) == CodeBits(n, 5)
  {
    hide CodeBits, CodeOf, FIXED_DIST;
    FixedDistLens();
  }

  // ---------- the header of a dynamic block (section 3.2.7) ----------

  /** The three bits from position i on, as a number. */
  function Three(s: seq<Bit>, i: nat): nat
    requires i + 3 <= |s|
  {
    Value(s[i]) + 2 * Value(s[i + 1]) + 4 * Value(s[i + 2])
  }

  /** The symbol of field k. */
  function OrderAt(k: nat): (s: nat)
    requires k < 19
    ensures s < 19
  {
    OrderInverse(k);
    BL_ORDER[k]
  }

  lemma OrderOnce(j: nat, k: nat)
    requires j < 19 && k < 19 && OrderAt(j) == OrderAt(k)
    ensures j == k
  {
    hide BL_ORDER;
    OrderInverse(j);
    OrderInverse(k);
  }

  lemma OrderIs(k: nat)
    requires k < 19
    ensures OrderAt(k) == if k < 3 then 16 + k else if k == 3 then 0 else if k % 2 == 0 then 6 + k / 2 else 9 - k / 2
  {
    assert k == 0 || k == 1 || k == 2 || k == 3 || k == 4 || k == 5 || k == 6 || k == 7 || k == 8 || k == 9 || k == 10
        || k == 11 || k == 12 || k == 13 || k == 14 || k == 15 || k == 16 || k == 17 || k == 18;
  }

  lemma {:induction false} OrderField(cl: seq<nat>, j: nat, k: nat, n: nat)
    requires ShortLens(cl) && j <= k < n <= BL_CODES
    ensures 3 * (k - j) + 3 <= |EncOrder(cl, j, n)| && Three(EncOrder(cl, j, n), 3 * (k - j)) == cl[OrderAt(k)]
    decreases k - j
  {
    hide LowBits, OrderAt, EncOrder, Three;
    OrderStep(cl, j, n);
    var e := EncOrder(cl, j, n);
    if j == k {
      ThreeLow(cl[OrderAt(j)]);
      ThreeSame(e, 0, LowBits(cl[OrderAt(j)], 3), 0);
    } else {
      OrderField(cl, j + 1, k, n);
      ThreeSame(e, 3 * (k - j), EncOrder(cl, j + 1, n), 3 * (k - j - 1));
    }
  }

  lemma ThreeSame(s: seq<Bit>, i: nat, t: seq<Bit>, j: nat)
    requires i + 3 <= |s| && j + 3 <= |t| && s[i] == t[j] && s[i + 1] == t[j + 1] && s[i + 2] == t[j + 2]
    ensures Three(s, i) == Three(t, j)
  {
  }

  lemma OrderStep(cl: seq<nat>, j: nat, n: nat)
    requires |cl| == BL_CODES && j < n <= BL_CODES
    ensures EncOrder(cl, j, n) == LowBits(cl[OrderAt(j)], 3) + EncOrder(cl, j + 1, n)
  {
    hide LowBits;
    OrderInverse(j);
  }

  lemma ThreeLow(v: nat)
    requires v < 8
    ensures Three(LowBits(v, 3), 0) == v
  {
    var s := LowBits(v, 3);
    Powers();
    NumberOfLowBits(v, 3);
    NumberIs(s);
  }

  /** The header of a dynamic block: 257 less than the number of literal codes in five bits, one less than the number of
      distance codes in five bits, four less than the number of bit length codes in four bits, and then three bits for each
      of these: for the symbols 16, 17, 18 and 0, and then from the middle of 1 to 15 outwards, 8, 7, 9, 6 and so on. */
  lemma {:induction false} HeaderFields(ll: seq<nat>, dl: seq<nat>, cl: seq<nat>, n: nat, k: nat)
    requires HeaderFit(ll, dl, cl, n) && k < n
    ensures var h := Header(ll, dl, cl, n);
            && 17 + 3 * k <= |h|
            && 257 + Number(h[..5]) == |ll| && 1 + Number(h[5..10]) == |dl| && 4 + Number(h[10..14]) == n
            && (k < 3 ==> Three(h, 14 + 3 * k) == cl[16 + k]) && (k == 3 ==> Three(h, 14 + 3 * k) == cl[0])
            && (k >= 4 && k % 2 == 0 ==> Three(h, 14 + 3 * k) == cl[6 + k / 2])
            && (k >= 4 && k % 2 == 1 ==> Three(h, 14 + 3 * k) == cl[9 - k / 2])
  {
    hide EncOrder, EncRuns, RunsFrom, OrderAt, CodeLens, CompleteCode, HeaderCounts, Number, RunsCovered, Three;
    var e, more := EncOrder(cl, 0, n), EncRuns(cl, Runs(ll)) + EncRuns(cl, Runs(dl));
    var h := Header(ll, dl, cl, n);
    assert h == HeaderCounts(ll, dl, n) + (e + more);
    CountsBack(ll, dl, n, e + more);
    OrderField(cl, 0, k, n);
    OrderIs(k);
    ThreeSame(h, 14 + 3 * k, e, 3 * k);
  }

  /** The lengths of the bit length codes as they are read: field k is for the symbol that the standard names. */
  ghost predicate FieldsOf(next: seq<Bit>, n: nat, cl: seq<nat>) {
    && 4 <= n <= 19 && |cl| == 19 && 14 + 3 * n <= |next|
    && (forall k :: 0 <= k < 3 ==> cl[16 + k] == Three(next, 14 + 3 * k)) && cl[0] == Three(next, 23)
    && (forall k :: 4 <= k < 19 && k % 2 == 0 ==> cl[6 + k / 2] == if k < n then Three(next, 14 + 3 * k) else 0)
    && (forall k :: 4 <= k < 19 && k % 2 == 1 ==> cl[9 - k / 2] == if k < n then Three(next, 14 + 3 * k) else 0)
  }

  lemma {:induction false} ReadField(next: seq<Bit>, k: nat, n: nat, cl: seq<nat>)
    requires k <= n <= BL_CODES && |cl| == BL_CODES && ReadOrder(next, k, n, cl).Got?
    ensures var r := ReadOrder(next, k, n, cl);
            && |r.value| == BL_CODES && 3 * (n - k) <= |next| && r.rest == next[3 * (n - k)..]
            && forall j :: 0 <= j < BL_CODES ==> r.value[OrderAt(j)] == if k <= j < n then Three(next, 3 * (j - k)) else cl[OrderAt(j)]
    decreases n - k
  {
    hide Number, OrderAt, Three, ReadOrder;
    if k < n {
      ReadStep(next, k, n, cl);
      var more, cl' := next[3..], cl[OrderAt(k) := Three(next, 0)];
      ReadField(more, k + 1, n, cl');
      var r := ReadOrder(next, k, n, cl);
      assert more[3 * (n - k - 1)..] == next[3 * (n - k)..];
      forall j | 0 <= j < BL_CODES ensures r.value[OrderAt(j)] == if k <= j < n then Three(next, 3 * (j - k)) else cl[OrderAt(j)] {
        if k < j < n {
          ThreeSame(next, 3 * (j - k), more, 3 * (j - k - 1));
        } else if j != k && OrderAt(j) == OrderAt(k) {
          OrderOnce(j, k);
        }
      }
    } else {
      ReadDone(next, n, cl);
    }
  }

  lemma ReadDone(next: seq<Bit>, n: nat, cl: seq<nat>)
    requires n <= BL_CODES == |cl|
    ensures ReadOrder(next, n, n, cl) == Got(cl, next)
  {
  }

  lemma ReadStep(next: seq<Bit>, k: nat, n: nat, cl: seq<nat>)
    requires k < n <= BL_CODES && |cl| == BL_CODES && ReadOrder(next, k, n, cl).Got?
    ensures |next| >= 3 && ReadOrder(next, k, n, cl) == ReadOrder(next[3..], k + 1, n, cl[OrderAt(k) := Three(next, 0)])
  {
    hide Number, Three;
    OrderInverse(k);
    if |next| >= 3 { ThreeNumber(next); }
  }

  lemma ThreeNumber(next: seq<Bit>)
    requires |next| >= 3
    ensures Number(next[..3]) == Three(next, 0)
  {
    NumberIs(next[..3]);
  }

  /** Whatever is read as the header of a dynamic block has its fields in the places that the standard gives them. */
  lemma {:induction false} TreesFields(next: seq<Bit>) returns (cl: seq<nat>)
    requires ReadTrees(next).Got?
    ensures |next| >= 14
    ensures var lit, dist, n, t := 257 + Number(next[..5]), 1 + Number(next[5..10]), 4 + Number(next[10..14]), ReadTrees(next);
            && lit <= 286 && dist <= 30 && FieldsOf(next, n, cl) && CompleteCode(cl)
            && ReadLengths(cl, lit + dist, next[14 + 3 * n..], []) == Got(t.value.ll + t.value.dl, t.rest)
            && |t.value.ll| == lit && |t.value.dl| == dist
  {
    hide Number, CompleteCode, ReadLengths, OrderAt, ReadOrder, Three;
    var lit, dist, n := 257 + Number(next[..5]), 1 + Number(next[5..10]), 4 + Number(next[10..14]);
    var r := ReadOrder(next[14..], 0, n, Times(0, BL_CODES));
    ReadField(next[14..], 0, n, Times(0, BL_CODES));
    cl := r.value;
    assert next[14..][3 * n..] == next[14 + 3 * n..];
    forall k: nat | k < 19 ensures cl[OrderAt(k)] == if k < n then Three(next, 14 + 3 * k) else 0 {
      if k < n { ThreeSame(next[14..], 3 * k, next, 14 + 3 * k); }
    }
    FieldsPlaced(next, n, cl);
    var lens := ReadLengths(cl, lit + dist, r.rest, []);
    assert lens.value == lens.value[..lit] + lens.value[lit..];
  }

  lemma FieldsPlaced(next: seq<Bit>, n: nat, cl: seq<nat>)
    requires 4 <= n <= 19 && |cl| == 19 && 14 + 3 * n <= |next|
    requires forall k :: 0 <= k < 19 ==> cl[OrderAt(k)] == if k < n then Three(next, 14 + 3 * k) else 0
    ensures FieldsOf(next, n, cl)
  {
    hide OrderAt, Three;
    forall k | 0 <= k < 3 ensures cl[16 + k] == Three(next, 14 + 3 * k) { OrderIs(k); }
    OrderIs(3);
    forall k | 4 <= k < 19 && k % 2 == 0 ensures cl[6 + k / 2] == if k < n then Three(next, 14 + 3 * k) else 0 { OrderIs(k); }
    forall k | 4 <= k < 19 && k % 2 == 1 ensures cl[9 - k / 2] == if k < n then Three(next, 14 + 3 * k) else 0 { OrderIs(k); }
  }

  // ---------- repeat codes (section 3.2.7) ----------

  /** 0 to 15 stand for themselves; 16 repeats the length before 3 to 6 times, 17 and 18 repeat zero 3 to 10 and 11 to 138
      times. */
  lemma {:induction false} RepeatMeans(cl: seq<nat>, s: nat, x: nat, acc: seq<nat>, rest: seq<Bit>)
    requires CodeLens(cl) && HasCode(cl, s) && s < 19
    ensures s < 16 ==> ReadRun(cl, CodeSeq(cl, s) + rest, acc) == Got(acc + [s], rest)
    ensures s == 16 && x < 4 && acc != [] ==>
              ReadRun(cl, CodeSeq(cl, s) + (LowBits(x, 2) + rest), acc) == Got(acc + Times(acc[|acc| - 1], 3 + x), rest)
    ensures s == 17 && x < 8 ==> ReadRun(cl, CodeSeq(cl, s) + (LowBits(x, 3) + rest), acc) == Got(acc + Times(0, 3 + x), rest)
    ensures s == 18 && x < 128 ==> ReadRun(cl, CodeSeq(cl, s) + (LowBits(x, 7) + rest), acc) == Got(acc + Times(0, 11 + x), rest)
  {
    hide CodeLens, CodeSeq, CodeOf, LowBits, Pow2, ReadSymbol, ReadBits, Times;
    Powers();
    SymbolBack(cl, s, rest);
    if s == 16 && x < 4 { SymbolBack(cl, s, LowBits(x, 2) + rest); BitsBack(x, 2, rest); }
    if s == 17 && x < 8 { SymbolBack(cl, s, LowBits(x, 3) + rest); BitsBack(x, 3, rest); }
    if s == 18 && x < 128 { SymbolBack(cl, s, LowBits(x, 7) + rest); BitsBack(x, 7, rest); }
  }

  /** k lengths that are waiting become one run, if there are as many as a run can have or the next length differs. */
  lemma {:induction false} RunEnds(lens: seq<nat>, n: nat, prev: int, count: nat, k: nat)
    requires 1 <= k && n + k <= |lens| && (forall i :: n <= i < n + k ==> lens[i] == lens[n]) && count + k <= MaxCount(lens[n], prev)
    requires count + k == MaxCount(lens[n], prev) || n + k == |lens| || lens[n + k] != lens[n]
    ensures RunsFrom(lens, n, prev, count) == Emit(lens[n], count + k, prev) + RunsFrom(lens, n + k, lens[n], 0)
    decreases k
  {
    hide Emit, MaxCount;
    if k > 1 { RunEnds(lens, n + 1, prev, count + 1, k - 1); }
  }

  /** The lengths are taken in the longest runs that the repeat codes allow: of k equal lengths in a row, 3 to 138 zeros are
      one symbol, 4 to 7 new lengths are the length and a repetition, and 3 to 6 further copies are one repetition. */
  lemma {:induction false} RunsGreedy(lens: seq<nat>, n: nat, prev: int, k: nat)
    requires 1 <= k && n + k <= |lens| && (forall i :: n <= i < n + k ==> lens[i] == lens[n]) && (n + k == |lens| || lens[n + k] != lens[n])
    ensures lens[n] == 0 && 3 <= k <= 138 ==> RunsFrom(lens, n, prev, 0) == [Zeros(k)] + RunsFrom(lens, n + k, 0, 0)
    ensures lens[n] == 0 && k > 138 ==> RunsFrom(lens, n, prev, 0) == [Zeros(138)] + RunsFrom(lens, n + 138, 0, 0)
    ensures lens[n] != 0 && lens[n] != prev && 4 <= k <= 7 ==>
              RunsFrom(lens, n, prev, 0) == [Len(lens[n]), Rep(k - 1)] + RunsFrom(lens, n + k, lens[n], 0)
    ensures lens[n] != 0 && lens[n] != prev && k > 7 ==>
              RunsFrom(lens, n, prev, 0) == [Len(lens[n]), Rep(6)] + RunsFrom(lens, n + 7, lens[n], 0)
    ensures lens[n] != 0 && lens[n] == prev && 3 <= k <= 6 ==> RunsFrom(lens, n, prev, 0) == [Rep(k)] + RunsFrom(lens, n + k, lens[n], 0)
    ensures lens[n] != 0 && lens[n] == prev && k > 6 ==> RunsFrom(lens, n, prev, 0) == [Rep(6)] + RunsFrom(lens, n + 6, lens[n], 0)
  {
    hide RunsFrom;
    var m := MaxCount(lens[n], prev);
    if k <= m { RunEnds(lens, n, prev, 0, k); } else { RunEnds(lens, n, prev, 0, m); }
  }

  // ---------- block types (section 3.2.3) ----------

  /** After a block: the end, or the next one. */
  function Onward(last: bool, r: Parsed<seq<Byte>>): Parsed<seq<Byte>> {
    if r.Bad? || last then r else Inflate(r.rest, r.value)
  }

  function AppendStored(out: seq<Byte>, r: Parsed<seq<Byte>>): Parsed<seq<Byte>> {
    if r.Bad? then Bad else Got(out + r.value, r.rest)
  }

  /** With codes of its own. */
  function PlayOwn(out: seq<Byte>, t: Parsed<Trees>): Parsed<seq<Byte>> {
    if t.Bad? then Bad else PlayParsed(out, ReadTokens(t.value.ll, t.value.dl, t.rest))
  }

  /** The last block is marked first; then come two bits: 00 for a stored block, 01 for the fixed codes, 10 for codes of its
      own, and 11 for an error, the lower bit first. */
  lemma {:induction false} BlockTypes(last: bool, next: seq<Bit>, out: seq<Byte>)
    ensures Inflate([last, false, false] + next, out) == Onward(last, AppendStored(out, ReadStored(next)))
    ensures Inflate([last, true, false] + next, out) == Onward(last, PlayParsed(out, ReadTokens(FIXED_LIT, FIXED_DIST, next)))
    ensures Inflate([last, false, true] + next, out) == Onward(last, PlayOwn(out, ReadTrees(next)))
    ensures Inflate([last, true, true] + next, out) == Bad
  {
    hide ReadStored, PlayParsed, PlayOwn, AppendStored, Inflate, ReadTokens, ReadTrees, FIXED_LIT, FIXED_DIST, Number, ReadBlock;
    TypeOf(last, false, false, next, out);
    TypeOf(last, true, false, next, out);
    TypeOf(last, false, true, next, out);
    TypeOf(last, true, true, next, out);
    KindsOf(next, out);
  }

  lemma KindsOf(next: seq<Bit>, out: seq<Byte>)
    ensures ReadBlock(0, next, out) == AppendStored(out, ReadStored(next))
    ensures ReadBlock(1, next, out) == PlayParsed(out, ReadTokens(FIXED_LIT, FIXED_DIST, next))
    ensures ReadBlock(2, next, out) == PlayOwn(out, ReadTrees(next))
    ensures ReadBlock(3, next, out) == Bad
  {
    hide ReadStored, PlayParsed, ReadTokens, ReadTrees, FIXED_LIT, FIXED_DIST;
  }

  lemma {:induction false} TypeOf(last: bool, a: Bit, b: Bit, next: seq<Bit>, out: seq<Byte>)
    ensures Inflate([last, a, b] + next, out) == Onward(last, ReadBlock(Value(a) + 2 * Value(b), next, out))
  {
    hide ReadBlock, Number;
    var s := [last, a, b] + next;
    assert s[1..3] == [a, b] && s[3..] == next;
    NumberIs([a, b]);
  }

  /** How the blocks are started. */
  lemma BlockStarts(eof: bool)
    ensures BlockStart(0, eof) == [eof, false, false] && BlockStart(1, eof) == [eof, true, false] && BlockStart(2, eof) == [eof, false, true]
  {
    LowThree(2 * 0 + Value(eof));
    LowThree(2 * 1 + Value(eof));
    LowThree(2 * 2 + Value(eof));
  }

  lemma LowThree(v: nat)
    ensures LowBits(v, 3) == [v % 2 == 1, v / 2 % 2 == 1, v / 2 / 2 % 2 == 1]
  {
    assert LowBits(v, 3) == [BitOf(v)] + LowBits(v / 2, 2);
    assert LowBits(v / 2, 2) == [BitOf(v / 2)] + LowBits(v / 2 / 2, 1);
    assert LowBits(v / 2 / 2, 1) == [BitOf(v / 2 / 2)] + LowBits(v / 2 / 2 / 2, 0);
  }

  // ---------- an example ----------

  /** The letter a as a block with the fixed codes: the three bytes 75, 4 and 0. */
  lemma {:induction false} LetterA()
    ensures Inflate(BytesToBits([75, 4, 0]), []) == Got([97], [false, false, false, false, false, false])
  {
    hide Inflate, ReadBlock, BytesToBits, EncTokens, CodeSeq, FIXED_LIT, FIXED_DIST, CodeOf, LowBits, CodeBits, FixedBody, Continues, BlockMeans, AllCovered, HasCode;
    var toks: seq<Token> := [Lit(97)];
    var rest := [false, false, false, false, false, false];
    FixedLetter();
    assert Playable([], toks) && Play([], toks) == [97] by { assert toks[1..] == []; }
    FixedBlock(0, toks, []);
    var body := FixedBody(toks);
    BlockAt(0, 1, body, [], [97], rest);
    TypeOf(true, true, false, body + rest, []);
    LetterBits();
  }

  lemma BlockAt(at: nat, kind: nat, body: seq<Bit>, out: seq<Byte>, out': seq<Byte>, rest: seq<Bit>)
    requires BlockMeans(at, kind, body, out, out') && (at + 3 + |body| + |rest|) % 8 == 0
    ensures ReadBlock(kind, body + rest, out) == Got(out', rest)
  {
    hide ReadBlock;
  }

  lemma {:induction false} FixedLetter()
    ensures AllCovered(FIXED_LIT, FIXED_DIST, [Lit(97)]) && HasCode(FIXED_LIT, END_BLOCK)
    ensures FixedBody([Lit(97)]) == CodeBits(145, 8) + CodeBits(0, 7)
  {
    hide CodeSeq, FIXED_LIT, FIXED_DIST, CodeOf, CodeBits;
    FixedCodes(97);
    FixedCodes(256);
    FixedLitLens();
    FixedDistLens();
    assert [Lit(97)][1..] == [];
    assert EncTokens(FIXED_LIT, FIXED_DIST, []) == [];
  }

  lemma {:induction false} LetterBits()
    ensures BytesToBits([75, 4, 0])
         == [true, true, false] + (CodeBits(145, 8) + CodeBits(0, 7) + [false, false, false, false, false, false])
  {
    hide LowBits, CodeBits, BytesToBits;
    LetterBytes();
    LetterCode();
    EndCode();
    var x := [true, true, false, true, false, false, true, false];
    var y := [false, false, true, false, false, false, false, false];
    var z := [false, false, false, false, false, false, false, false];
    assert x + y + z == [true, true, false] + ([true, false, false, true, false, false, false, true]
                                             + [false, false, false, false, false, false, false]
                                             + [false, false, false, false, false, false]);
  }

  lemma {:induction false} LetterBytes()
    ensures BytesToBits([75, 4, 0]) == [true, true, false, true, false, false, true, false]
                                     + [false, false, true, false, false, false, false, false]
                                     + [false, false, false, false, false, false, false, false]
  {
    hide BytesToBits, LowBits;
    assert [75, 4, 0] == [75] + [4] + [0];
    BytesToBitsAppend([75] + [4], [0]);
    BytesToBitsAppend([75], [4]);
    OneByte(75);
    OneByte(4);
    OneByte(0);
    FirstLow();
    SecondLow();
    ThirdLow();
  }

  lemma FirstLow()
    ensures LowBits(75, 8) == [true, true, false, true, false, false, true, false]
  {
  }

  lemma SecondLow()
    ensures LowBits(4, 8) == [false, false, true, false, false, false, false, false]
  {
  }

  lemma ThirdLow()
    ensures LowBits(0, 8) == [false, false, false, false, false, false, false, false]
  {
  }

  lemma LetterCode()
    ensures CodeBits(145, 8) == [true, false, false, true, false, false, false, true]
  {
  }

  lemma EndCode()
    ensures CodeBits(0, 7) == [false, false, false, false, false, false, false]
  {
  }
}
