/** The sliding-window dictionary of LZO1X-999: a ring buffer with a mirrored start, hash chains on
    three bytes with explicit chain lengths, and a table of most recent positions on two bytes. */
module LzoSwd {
  import opened Arithmetic
  import opened Bytes

  const N := 0xbfff          // size of the window
  const F := 2048            // upper limit for the match length
  const B := N + F           // size of the ring
  const HSIZE := 16384
  const NIL2 := 0xffff
  const BEST := 34

  function Slot(x: nat): (s: nat)
    ensures s < B
  {
    x % B
  }

  function Key3(b0: Byte, b1: Byte, b2: Byte): (k: nat)
    ensures k < HSIZE
  {
    0x9f5f * ShiftXor(ShiftXor(b0, b1), b2) / 32 % HSIZE
  }

  function Key2(b0: Byte, b1: Byte): (k: nat)
    ensures k < 0x10000
  {
    b0 + (b1 as int) * 256
  }

  lemma NoMultiple(d: int, k: int)
    requires -255 <= d <= 255 && -31 <= 0x9f5f * d - 32 * HSIZE * k <= 31
    ensures d == 0
  {
    var e := d - 13 * k;
    assert -31 <= 0x9f5f * e + 6099 * k <= 31;
    assert -3 <= e <= 3 && -20 <= k <= 20;
  }

  lemma Multiples(x: int, y: int)
    requires -255 <= x - y <= 255 && 0 <= x && 0 <= y
    requires 0x9f5f * x / 32 % HSIZE == 0x9f5f * y / 32 % HSIZE
    ensures x == y
  {
    var p, q := 0x9f5f * x / 32, 0x9f5f * y / 32;
    var k := p / HSIZE - q / HSIZE;
    assert p - q == HSIZE * k;
    NoMultiple(x - y, k);
  }

  /** The search never compares the third byte: with two bytes equal, equal keys make it equal. */
  lemma {:induction false} Key3Injective(b0: Byte, b1: Byte, b2: Byte, c2: Byte)
    requires Key3(b0, b1, b2) == Key3(b0, b1, c2)
    ensures b2 == c2
  {
    hide ShiftXor;
    var u := ShiftXor(b0, b1);
    Multiples(ShiftXor(u, b2), ShiftXor(u, c2));
    ShiftXorInjective(u, b2, c2);
  }

  // ---------- slots ----------

  /** A pointer into the ring moves on. */
  function Next(i: nat): nat {
    if i + 1 == B then 0 else i + 1
  }

  lemma NextIn(i: nat)
    requires i < B
    ensures Next(i) < B
  {
  }

  lemma SlotNext(x: nat)
    ensures Slot(x + 1) == Next(Slot(x))
  {
    SlotShift(x, 1);
  }

  lemma SlotShift(x: nat, j: nat)
    requires j < B
    ensures Slot(x + j) == if Slot(x) + j < B then Slot(x) + j else Slot(x) + j - B
  {
    var q := x / B;
    assert x + j == q * B + (Slot(x) + j);
    if Slot(x) + j < B {
      Remainder(x + j, B, q, Slot(x) + j);
    } else {
      Remainder(x + j, B, q + 1, Slot(x) + j - B);
    }
  }

  lemma SlotInjective(x: nat, y: nat)
    requires x <= y < x + B && Slot(x) == Slot(y)
    ensures x == y
  {
    SlotShift(x, y - x);
  }

  /** swd_pos2off */
  function Off(bp: nat, pos: nat): (d: int) {
    if bp > pos then bp - pos else B - (pos - bp)
  }

  lemma OffOfSlot(x: nat, p: nat)
    requires x < p < x + B
    ensures Off(Slot(p), Slot(x)) == p - x
  {
    SlotShift(x, p - x);
  }

  // ---------- the ring ----------

  /** The ring holds the input from p - N up to `end`; the mirror past its end repeats what has
      wrapped around at least once. */
  ghost predicate Ring(b: seq<Byte>, inp: seq<Byte>, p: nat, end: nat) {
    && |b| == B + F && end <= |inp|
    && forall x: nat {:trigger inp[x]} :: p <= x + N && x < end ==>
         && b[Slot(x)] == inp[x]
         && (x >= B && Slot(x) < F ==> b[B + Slot(x)] == inp[x])
  }

  /** Reading forward from a slot, over the end of the ring into the mirror, reads the input. */
  lemma {:induction false} ReadAhead(b: seq<Byte>, inp: seq<Byte>, p: nat, end: nat, x: nat, j: nat)
    requires Ring(b, inp, p, end) && p <= x + N && x + j < end && j <= F
    ensures Slot(x) + j < B + F && b[Slot(x) + j] == inp[x + j]
  {
    SlotShift(x, j);
    assert inp[x + j] == inp[x + j];
    if Slot(x) + j >= B {
      assert x + j >= B by { if x + j < B { Remainder(x, B, 0, x); } }
    }
  }

  function Write(b: seq<Byte>, s: nat, c: Byte): (b': seq<Byte>)
    requires |b| == B + F && s < B
    ensures |b'| == |b|
  {
    if s < F then b[s := c][B + s := c] else b[s := c]
  }

  /** Taking in the next input byte moves the window on by one. */
  lemma {:induction false} RingStep(b: seq<Byte>, inp: seq<Byte>, p: nat, end: nat)
    requires Ring(b, inp, p, end) && end < |inp| && end == p + F
    ensures Ring(Write(b, Slot(end), inp[end]), inp, p + 1, end + 1)
  {
    var b' := Write(b, Slot(end), inp[end]);
    forall x: nat | p + 1 <= x + N && x < end + 1
      ensures b'[Slot(x)] == inp[x] && (x >= B && Slot(x) < F ==> b'[B + Slot(x)] == inp[x])
    {
      if x < end && Slot(x) == Slot(end) { SlotInjective(x, end); }
      assert inp[x] == inp[x];
    }
  }

  // ---------- keys of the positions in the window ----------

  function Key3At(b: seq<Byte>, s: nat): (k: nat)
    requires |b| == B + F && s < B
    ensures k < HSIZE
  {
    Key3(b[s], b[s + 1], b[s + 2])
  }

  function Key2At(b: seq<Byte>, s: nat): (k: nat)
    requires |b| == B + F && s < B
    ensures k < 0x10000
  {
    Key2(b[s], b[s + 1])
  }

  /** The keys under which the positions from lo on were entered can still be read off the ring. */
  ghost predicate Keyed3(b: seq<Byte>, keys3: seq<nat>, lo: nat) {
    |b| == B + F && forall x: nat {:trigger keys3[x]} :: lo <= x < |keys3| ==> keys3[x] == Key3At(b, Slot(x))
  }

  ghost predicate Keyed2(b: seq<Byte>, keys2: seq<nat>, lo: nat) {
    |b| == B + F && forall x: nat {:trigger keys2[x]} :: lo <= x < |keys2| ==> keys2[x] == Key2At(b, Slot(x))
  }

  lemma {:induction false} SameBytes(b: seq<Byte>, b': seq<Byte>, inp: seq<Byte>, p: nat, end: nat, x: nat)
    requires Ring(b, inp, p, end) && Ring(b', inp, p + 1, end + 1) && p < x + N && x + 2 < end
    ensures |b| == |b'| == B + F
    ensures Key3At(b, Slot(x)) == Key3At(b', Slot(x)) && Key2At(b, Slot(x)) == Key2At(b', Slot(x))
  {
    hide Slot, Key3, Key2;
    ReadAhead(b, inp, p, end, x, 0);
    ReadAhead(b', inp, p + 1, end + 1, x, 0);
    ReadAhead(b, inp, p, end, x, 1);
    ReadAhead(b', inp, p + 1, end + 1, x, 1);
    ReadAhead(b, inp, p, end, x, 2);
    ReadAhead(b', inp, p + 1, end + 1, x, 2);
  }

  /** A byte that is taken in while the look-ahead is full changes no key in the window. */
  lemma {:induction false} KeyedStep(b: seq<Byte>, inp: seq<Byte>, p: nat, end: nat, keys3: seq<nat>, keys2: seq<nat>, lo: nat)
    requires Ring(b, inp, p, end) && end < |inp| && end == p + F && |keys3| <= p + 1 && |keys2| <= p + 1 && p < lo + N
    requires Keyed3(b, keys3, lo) && Keyed2(b, keys2, lo)
    ensures Keyed3(Write(b, Slot(end), inp[end]), keys3, lo) && Keyed2(Write(b, Slot(end), inp[end]), keys2, lo)
  {
    hide Ring, Write, Key3At, Key2At;
    RingStep(b, inp, p, end);
    RingSize(b, inp, p, end);
    var b' := Write(b, Slot(end), inp[end]);
    forall x: nat | lo <= x < |keys3| ensures keys3[x] == Key3At(b', Slot(x)) {
      SameBytes(b, b', inp, p, end, x);
    }
    forall x: nat | lo <= x < |keys2| ensures keys2[x] == Key2At(b', Slot(x)) {
      SameBytes(b, b', inp, p, end, x);
    }
  }

  lemma RingSize(b: seq<Byte>, inp: seq<Byte>, p: nat, end: nat)
    requires Ring(b, inp, p, end)
    ensures |b| == B + F
  {
  }

  // ---------- the chains ----------

  /** The last position in lo..hi with key k, or lo - 1. */
  ghost function LastOf(keys: seq<nat>, lo: nat, hi: nat, k: nat): (x: int)
    requires lo <= hi <= |keys|
    ensures lo - 1 <= x < hi
    ensures x >= lo ==> keys[x] == k
    decreases hi
  {
    if hi == lo then lo - 1 else if keys[hi - 1] == k then hi - 1 else LastOf(keys, lo, hi - 1, k)
  }

  ghost function Cnt(keys: seq<nat>, lo: nat, hi: nat, k: nat): (n: nat)
    requires lo <= hi <= |keys|
    ensures n <= hi - lo
    decreases hi
  {
    if hi == lo then 0 else Cnt(keys, lo, hi - 1, k) + (if keys[hi - 1] == k then 1 else 0)
  }

  lemma {:induction false} CntLast(keys: seq<nat>, lo: nat, hi: nat, k: nat)
    requires lo <= hi <= |keys| && Cnt(keys, lo, hi, k) > 0
    ensures var x := LastOf(keys, lo, hi, k); x >= lo && Cnt(keys, lo, hi, k) == Cnt(keys, lo, x, k) + 1
    decreases hi
  {
    if keys[hi - 1] != k { CntLast(keys, lo, hi - 1, k); }
  }

  lemma {:induction false} LastIs(keys: seq<nat>, lo: nat, hi: nat, k: nat, x: nat)
    requires lo <= x < hi <= |keys| && keys[x] == k && forall y: nat :: x < y < hi ==> keys[y] != k
    ensures LastOf(keys, lo, hi, k) == x && Cnt(keys, lo, hi, k) > 0
    decreases hi
  {
    if x < hi - 1 { LastIs(keys, lo, hi - 1, k, x); }
  }

  lemma {:induction false} DropFirst(keys: seq<nat>, lo: nat, hi: nat, k: nat)
    requires lo < hi <= |keys|
    ensures Cnt(keys, lo, hi, k) == Cnt(keys, lo + 1, hi, k) + (if keys[lo] == k then 1 else 0)
    ensures LastOf(keys, lo + 1, hi, k) > lo ==> LastOf(keys, lo, hi, k) == LastOf(keys, lo + 1, hi, k)
    decreases hi
  {
    if hi - 1 > lo { DropFirst(keys, lo, hi - 1, k); }
  }

  lemma {:induction false} KeysPrefix(keys: seq<nat>, more: seq<nat>, lo: nat, hi: nat, k: nat)
    requires lo <= hi <= |keys| && keys <= more
    ensures LastOf(keys, lo, hi, k) == LastOf(more, lo, hi, k) && Cnt(keys, lo, hi, k) == Cnt(more, lo, hi, k)
    decreases hi
  {
    if hi > lo { KeysPrefix(keys, more, lo, hi - 1, k); }
  }

  /** llen3 counts the positions of each key in the window, head3 is the last of them, and succ3 leads
      from each to the one before. Entries beyond the counts may be anything. */
  ghost predicate Chains(head3: seq<nat>, succ3: seq<nat>, llen3: seq<nat>, keys: seq<nat>, lo: nat, hi: nat) {
    && |head3| == |llen3| == HSIZE && |succ3| == B && lo <= hi <= |keys|
    && (forall x {:trigger keys[x]} :: 0 <= x < |keys| ==> keys[x] < HSIZE)
    && (forall k {:trigger llen3[k]} :: 0 <= k < HSIZE ==> llen3[k] == Cnt(keys, lo, hi, k))
    && (forall k {:trigger head3[k]} :: 0 <= k < HSIZE && LastOf(keys, lo, hi, k) >= lo ==>
          head3[k] == Slot(LastOf(keys, lo, hi, k)))
    && (forall x: nat {:trigger keys[x]} :: lo <= x < hi && LastOf(keys, lo, x, keys[x]) >= lo ==>
          succ3[Slot(x)] == Slot(LastOf(keys, lo, x, keys[x])))
  }

  /** `cnt` positions from lo on have the key of position x, and if there are any, `node` is the last. */
  ghost predicate ChainStart(keys: seq<nat>, lo: nat, x: nat, node: nat, cnt: nat) {
    && lo <= x < |keys| && cnt == Cnt(keys, lo, x, keys[x])
    && (cnt > 0 ==> LastOf(keys, lo, x, keys[x]) >= lo && node == Slot(LastOf(keys, lo, x, keys[x])))
  }

  lemma {:induction false} ChainsHead(head3: seq<nat>, succ3: seq<nat>, llen3: seq<nat>, keys: seq<nat>, lo: nat, hi: nat, k: nat)
    requires Chains(head3, succ3, llen3, keys, lo, hi) && hi == |keys| && k < HSIZE
    ensures ChainStart(keys + [k], lo, hi, head3[k], llen3[k])
  {
    KeysPrefix(keys, keys + [k], lo, hi, k);
    if llen3[k] > 0 { CntLast(keys, lo, hi, k); }
  }

  /** Entering position hi. */
  lemma {:induction false} ChainsInsert(head3: seq<nat>, succ3: seq<nat>, llen3: seq<nat>, keys: seq<nat>, lo: nat, hi: nat, k: nat)
    requires Chains(head3, succ3, llen3, keys, lo, hi) && hi == |keys| && hi <= lo + N && k < HSIZE
    ensures Chains(head3[k := Slot(hi)], succ3[Slot(hi) := head3[k]], llen3[k := llen3[k] + 1], keys + [k], lo, hi + 1)
  {
    hide Slot;
    var head3', succ3', llen3', keys' := head3[k := Slot(hi)], succ3[Slot(hi) := head3[k]], llen3[k := llen3[k] + 1], keys + [k];
    forall j | 0 <= j < HSIZE
      ensures llen3'[j] == Cnt(keys', lo, hi + 1, j)
      ensures LastOf(keys', lo, hi + 1, j) >= lo ==> head3'[j] == Slot(LastOf(keys', lo, hi + 1, j))
    {
      KeysPrefix(keys, keys', lo, hi, j);
    }
    forall x: nat | lo <= x < hi + 1 && LastOf(keys', lo, x, keys'[x]) >= lo
      ensures succ3'[Slot(x)] == Slot(LastOf(keys', lo, x, keys'[x]))
    {
      KeysPrefix(keys, keys', lo, x, keys'[x]);
      if x < hi {
        if Slot(x) == Slot(hi) { SlotInjective(x, hi); }
        assert keys'[x] == keys[x];
      } else {
        assert LastOf(keys, lo, hi, k) >= lo;
      }
    }
  }

  /** Removing position lo: only its chain length changes. */
  lemma {:induction false} ChainsRemove(head3: seq<nat>, succ3: seq<nat>, llen3: seq<nat>, keys: seq<nat>, lo: nat, hi: nat)
    requires Chains(head3, succ3, llen3, keys, lo, hi) && lo < hi
    ensures llen3[keys[lo]] > 0
    ensures Chains(head3, succ3, llen3[keys[lo] := llen3[keys[lo]] - 1], keys, lo + 1, hi)
  {
    hide Slot;
    forall k ensures (k == keys[lo] ==> Cnt(keys, lo, hi, k) > 0)
      && Cnt(keys, lo, hi, k) == Cnt(keys, lo + 1, hi, k) + (if keys[lo] == k then 1 else 0)
      && (LastOf(keys, lo + 1, hi, k) > lo ==> LastOf(keys, lo, hi, k) == LastOf(keys, lo + 1, hi, k))
    {
      DropFirst(keys, lo, hi, k);
    }
    forall x: nat | lo + 1 <= x < hi && LastOf(keys, lo + 1, x, keys[x]) >= lo + 1
      ensures succ3[Slot(x)] == Slot(LastOf(keys, lo + 1, x, keys[x]))
    {
      DropFirst(keys, lo, x, keys[x]);
    }
  }

  // ---------- the two-byte table ----------

  /** Every entry that is not NIL2 is a position in the window that was entered under that key, and no later
      one was. */
  ghost predicate Heads2(head2: seq<nat>, at2: seq<int>, keys2: seq<nat>, lo: nat, hi: nat) {
    && |head2| == |at2| == 0x10000 && lo <= hi <= |keys2|
    && (forall k {:trigger head2[k]} :: 0 <= k < 0x10000 && head2[k] != NIL2 ==>
         lo <= at2[k] < hi && head2[k] == Slot(at2[k]) && keys2[at2[k]] == k)
    && forall x: nat {:trigger keys2[x]} :: lo <= x < hi ==>
         keys2[x] < 0x10000 && head2[keys2[x]] != NIL2 && at2[keys2[x]] >= x
  }

  lemma Heads2Insert(head2: seq<nat>, at2: seq<int>, keys2: seq<nat>, lo: nat, hi: nat, k: nat)
    requires Heads2(head2, at2, keys2, lo, hi) && hi == |keys2| && k < 0x10000
    ensures Heads2(head2[k := Slot(hi)], at2[k := hi], keys2 + [k], lo, hi + 1)
  {
  }

  lemma {:induction false} Heads2Remove(head2: seq<nat>, at2: seq<int>, keys2: seq<nat>, lo: nat, hi: nat)
    requires Heads2(head2, at2, keys2, lo, hi) && lo < hi <= lo + B && keys2[lo] < 0x10000
    ensures var k := keys2[lo];
            Heads2(if head2[k] == Slot(lo) then head2[k := NIL2] else head2, at2, keys2, lo + 1, hi)
  {
    hide Slot;
    var k := keys2[lo];
    var head2' := if head2[k] == Slot(lo) then head2[k := NIL2] else head2;
    forall j | 0 <= j < 0x10000 && head2'[j] != NIL2
      ensures lo + 1 <= at2[j] < hi && head2'[j] == Slot(at2[j]) && keys2[at2[j]] == j
    {
      assert head2[j] == head2'[j];
    }
    forall x: nat | lo + 1 <= x < hi ensures keys2[x] < 0x10000 && head2'[keys2[x]] != NIL2 && at2[keys2[x]] >= x {
      assert at2[keys2[x]] >= x;
      if keys2[x] == k && head2[k] == Slot(lo) { SlotInjective(lo, at2[k]); }
    }
  }

  // ---------- what a search reports ----------

  /** The `len` bytes at q also occur d bytes earlier, within the window. */
  predicate Occurs(inp: seq<Byte>, q: nat, d: nat, len: nat) {
    && 1 <= d <= q && d <= N && q + len <= |inp|
    && forall k :: q <= k < q + len ==> inp[k] == inp[k - d]
  }

  /** The nonzero best_off entries are matches at q. */
  ghost predicate BestAt(inp: seq<Byte>, q: nat, bestOff: seq<nat>) {
    |bestOff| == BEST && forall i {:trigger bestOff[i]} :: 2 <= i < BEST && bestOff[i] != 0 ==> Occurs(inp, q, bestOff[i], i)
  }

  predicate NoBest(bestOff: seq<nat>) {
    forall i :: 2 <= i < |bestOff| ==> bestOff[i] == 0
  }

  /** The two bytes at q are somewhere else in the window. */
  ghost predicate Repeated(inp: seq<Byte>, q: nat) {
    exists d: nat :: Occurs(inp, q, d, 2)
  }

  /** How many bytes at q, from the i-th on, are the same as d before, up to the longest match there can be. */
  function Common(inp: seq<Byte>, q: nat, d: nat, i: nat): (n: nat)
    requires d <= q && q + i <= |inp| && i <= F
    ensures i <= n <= F && q + n <= |inp|
    decreases F - i
  {
    if i < F && q + i < |inp| && inp[q + i] == inp[q + i - d] then Common(inp, q, d, i + 1) else i
  }

  lemma {:induction false} CommonIs(inp: seq<Byte>, q: nat, d: nat, i: nat, n: nat)
    requires d <= q && i <= n <= F && q + n <= |inp| && forall k :: q + i <= k < q + n ==> inp[k] == inp[k - d]
    requires n == F || q + n == |inp| || inp[q + n] != inp[q + n - d]
    ensures Common(inp, q, d, i) == n
    decreases n - i
  {
    if i < n {
      assert inp[q + i] == inp[q + i - d];
      CommonIs(inp, q, d, i + 1, n);
    }
  }

  lemma {:induction false} CommonSame(inp: seq<Byte>, q: nat, d: nat, i: nat)
    requires d <= q && q + i <= |inp| && i <= F
    ensures forall k :: q + i <= k < q + Common(inp, q, d, i) ==> inp[k] == inp[k - d]
    decreases F - i
  {
    if i < F && q + i < |inp| && inp[q + i] == inp[q + i - d] { CommonSame(inp, q, d, i + 1); }
  }

  /** The key of the three bytes at x. */
  function KeyOf(inp: seq<Byte>, x: nat): nat
    requires x + 2 < |inp|
  {
    Key3(inp[x], inp[x + 1], inp[x + 2])
  }

  /** The distance that is tried first: that of the last position with the key of the bytes at q. */
  ghost predicate FirstTried(inp: seq<Byte>, q: nat, d: nat) {
    && 1 <= d <= q && d <= N && q + 2 < |inp|
    && KeyOf(inp, q - d) == KeyOf(inp, q) && forall y: nat :: q - d < y < q ==> KeyOf(inp, y) != KeyOf(inp, q)
  }

  /** What is reported is not shorter than what the distance that is tried first gives, and if that is all there can be,
      then it is reported with this distance. */
  ghost predicate Deep(inp: seq<Byte>, q: nat, len: nat, off: nat) {
    forall d: nat :: FirstTried(inp, q, d) && Common(inp, q, d, 0) >= 3 ==>
      && len >= Common(inp, q, d, 0)
      && (Common(inp, q, d, 0) == F || q + Common(inp, q, d, 0) == |inp| ==> len == Common(inp, q, d, 0) && off == d)
  }

  function Lo(p: nat): nat {
    if p >= N then p - N else 0
  }

  class Swd {
    const inp: seq<Byte>
    const useBestOff: bool
    var maxChain: nat
    var b: seq<Byte>
    var head3: seq<nat>
    var succ3: seq<nat>
    var best3: seq<nat>
    var llen3: seq<nat>
    var head2: seq<nat>
    var inIp: nat
    var ip: nat
    var bp: nat
    var rp: nat
    var nodeCount: nat
    var look: nat
    var mLen: nat
    var mOff: nat
    var mPos: nat
    var bChar: int
    var bestPos: seq<nat>
    var bestOff: seq<nat>
    ghost var p: nat
    ghost var keys3: seq<nat>
    ghost var keys2: seq<nat>
    ghost var at2: seq<int>

    /** Where the pointers are, and what the ring holds: p is the input position of bp. */
    ghost predicate Window()
      reads this`b, this`p, this`inIp, this`look, this`ip, this`bp, this`rp, this`best3, this`bestPos, this`bestOff
    {
      && Ring(b, inp, p, inIp)
      && look == (if p <= inIp then inIp - p else 0) && look <= F
      && (inIp < |inp| ==> look == F && ip == Slot(inIp))
      && ip < B && bp == Slot(p) && rp == Slot(p + F)
      && |best3| == B && |bestPos| == |bestOff| == BEST
    }

    /** The tables for the positions from lo on: h3 entered in the chains, h2 in the two-byte table. */
    ghost predicate Tables(lo: nat, h3: nat, h2: nat)
      reads this`b, this`keys3, this`keys2, this`head3, this`succ3, this`llen3, this`head2, this`at2
    {
      && |keys3| == h3 && |keys2| == h2
      && Keyed3(b, keys3, lo) && Keyed2(b, keys2, lo)
      && Chains(head3, succ3, llen3, keys3, lo, h3) && Heads2(head2, at2, keys2, lo, h2)
    }

    ghost predicate Valid()
      reads this`b, this`p, this`inIp, this`look, this`ip, this`bp, this`rp, this`best3, this`bestPos, this`bestOff,
            this`keys3, this`keys2, this`head3, this`succ3, this`llen3, this`head2, this`at2, this`nodeCount
    {
      Window() && Tables(Lo(p), p, p) && nodeCount == N - (p - Lo(p))
    }

    /** swd_init: the first bytes go into the ring, not into its mirror; the tables other than the chain
        lengths and the two-byte heads hold whatever the work memory held. */
    constructor (input: seq<Byte>, best: bool, mem: seq<Byte>, h3: seq<nat>, s3: seq<nat>, b3: seq<nat>, bo: seq<nat>, bpos: seq<nat>)
      requires |mem| == B + F && |h3| == HSIZE && |s3| == |b3| == B && |bo| == |bpos| == BEST
      ensures Valid() && p == 0 && inp == input && useBestOff == best
    {
      hide Ring, Chains, Heads2;
      inp, useBestOff := input, best;
      maxChain := 0;
      nodeCount := N;
      llen3 := seq(HSIZE, _ => 0);
      head2 := seq(0x10000, _ => NIL2);
      head3, succ3, best3, bestOff, bestPos := h3, s3, b3, bo, bpos;
      var l := if |input| > F then F else |input|;
      look := l;
      b := input[..l] + mem[l..];
      inIp := l;
      ip := l;
      bp := 0;
      rp := B - N;
      mLen, mOff, mPos, bChar := 0, 0, 0, 0;
      p, keys3, keys2, at2 := 0, [], [], seq(0x10000, _ => 0);
      new;
      FirstRing(b, inp, mem, inIp);
      NoPositions(head3, succ3, llen3, head2, at2);
    }

    /** swd_remove_node(rp): once the window is full, the oldest position leaves the tables. */
    method RemoveNode(ghost h3: nat, ghost h2: nat)
      requires Window() && nodeCount == N - (p - Lo(p)) && Tables(Lo(p), h3, h2)
      requires p <= h3 <= p + 1 && p <= h2 <= p + 1
      modifies this`nodeCount, this`llen3, this`head2
      ensures Tables(Lo(p + 1), h3, h2) && nodeCount == N - (p + 1 - Lo(p + 1))
    {
      hide Key3At, Key2At, Slot, Chains, Heads2, Ring;
      if nodeCount == 0 {
        ghost var lo := Lo(p);
        assert rp == Slot(lo) by { SlotShift(lo, 0); assert p + F == lo + B; SlotLap(lo); }
        RingSize(b, inp, p, inIp);
        ChainsRemove(head3, succ3, llen3, keys3, lo, h3);
        Heads2Remove(head2, at2, keys2, lo, h2);
        ChainsSize(head3, succ3, llen3, keys3, lo, h3);
        Heads2Size(head2, at2, keys2, lo, h2);
        var key := Key3At(b, rp);
        assert key == keys3[lo];
        llen3 := llen3[key := llen3[key] - 1];
        key := Key2At(b, rp);
        assert key == keys2[lo];
        if head2[key] == rp {
          head2 := head2[key := NIL2];
        }
      } else {
        nodeCount := nodeCount - 1;
      }
    }

    /** Enter bp into the chains; the old head and the old chain length are handed back. */
    method Insert3(ghost lo: nat, ghost h2: nat) returns (node: nat, cnt: nat)
      requires Window() && Tables(lo, p, h2) && lo <= p <= lo + N
      modifies this`head3, this`succ3, this`llen3, this`keys3
      ensures Tables(lo, p + 1, h2)
      ensures ChainStart(keys3, lo, p, node, cnt)
    {
      hide Key3At, Key2At, Slot, Ring, Heads2, Keyed2, Chains, ChainStart;
      RingSize(b, inp, p, inIp);
      var key := Key3At(b, bp);
      ChainsInsert(head3, succ3, llen3, keys3, lo, p, key);
      ChainsSize(head3, succ3, llen3, keys3, lo, p);
      node, cnt := head3[key], llen3[key];
      ChainsHead(head3, succ3, llen3, keys3, lo, p, key);
      succ3 := succ3[bp := node];
      llen3 := llen3[key := cnt + 1];
      head3 := head3[key := bp];
      keys3 := keys3 + [key];
    }

    /** Enter bp into the two-byte table. */
    method Insert2(ghost lo: nat, ghost h3: nat)
      requires Window() && Tables(lo, h3, p) && lo <= p
      modifies this`head2, this`keys2, this`at2
      ensures Tables(lo, h3, p + 1)
    {
      hide Key3At, Key2At, Slot, Ring, Chains, Keyed3;
      RingSize(b, inp, p, inIp);
      var key := Key2At(b, bp);
      Heads2Insert(head2, at2, keys2, lo, p, key);
      Heads2Size(head2, at2, keys2, lo, p);
      head2 := head2[key := bp];
      at2 := at2[key := p];
      keys2 := keys2 + [key];
    }

    /** swd_getbyte: take in one more byte, if there is one, and move all pointers on. */
    method GetByte()
      requires Window() && nodeCount == N - (p + 1 - Lo(p + 1)) && Tables(Lo(p + 1), p + 1, p + 1)
      modifies this`b, this`look, this`inIp, this`ip, this`bp, this`rp, this`p
      ensures Valid() && p == old(p) + 1
      ensures inIp == (if old(inIp) < |inp| then old(inIp) + 1 else old(inIp))
    {
      hide Slot, Ring, Write, Chains, Heads2, Keyed3, Keyed2, Next;
      RingSize(b, inp, p, inIp);
      SlotNext(p);
      SlotNext(p + F);
      NextIn(ip);
      if inIp >= |inp| {
        RingLess(b, inp, p, inIp);
        if look > 0 { look := look - 1; }
      } else {
        SlotNext(inIp);
        RingStep(b, inp, p, inIp);
        KeyedStep(b, inp, p, inIp, keys3, keys2, Lo(p + 1));
        b := Write(b, ip, inp[inIp]);
        inIp := inIp + 1;
      }
      ip := Next(ip);
      bp := Next(bp);
      rp := Next(rp);
      p := p + 1;
    }

    /** swd_accept: enter n positions without searching. */
    method Accept(n: nat)
      requires Valid()
      modifies this
      ensures Valid() && p == old(p) + n && bestOff == old(bestOff) && maxChain == old(maxChain)
      ensures inIp <= |inp| && old(inIp) <= inIp
    {
      hide Ring, Slot, Tables;
      RingEnd(b, inp, p, inIp);
      for i := 0 to n
        invariant Valid() && p == old(p) + i && bestOff == old(bestOff) && maxChain == old(maxChain)
        invariant inIp <= |inp| && old(inIp) <= inIp
      {
        Shift();
      }
    }

    /** Enter one position, take the oldest one out, and move on. */
    method Shift()
      requires Valid()
      modifies this
      ensures Valid() && p == old(p) + 1 && bestOff == old(bestOff) && maxChain == old(maxChain)
      ensures inIp == (if old(inIp) < |inp| then old(inIp) + 1 else old(inIp))
    {
      hide Ring, Slot, Tables;
      RemoveNode(p, p);
      var _, _ := Insert3(Lo(p + 1), p);
      best3 := best3[bp := F + 1];
      Insert2(Lo(p + 1), p + 1);
      GetByte();
    }

    /** One candidate of the search: the two bytes around the length to beat, the first two, and from the
        fourth on.  The third is not compared.  Zero means that the candidate is skipped. */
    method Compare(node: nat, len: nat, ghost x: nat, ghost lo: nat) returns (i: nat)
      requires Window() && Keyed3(b, keys3, lo) && |keys3| == p + 1 && lo <= x < p <= lo + N
      requires node == Slot(x) && keys3[x] == keys3[p] && 3 <= look && 1 <= len < look
      ensures i == 0 || (3 <= i <= look && Occurs(inp, p, p - x, i))
      ensures p <= |inp| && (i == 0 || i == Common(inp, p, p - x, 0)) && (2 <= len < Common(inp, p, p - x, 0) ==> i > 0)
    {
      hide Slot, Key3, Ring, Common;
      i := 0;
      RingSize(b, inp, p, inIp);
      RingEnd(b, inp, p, inIp);
      if 2 <= len < Common(inp, p, p - x, 0) { NotSkipped(b, inp, p, inIp, x, len); }
      if b[node + len - 1] == b[bp + len - 1] && b[node + len] == b[bp + len] && b[node] == b[bp] && b[node + 1] == b[bp + 1] {
        ThreeEqual(b, inp, p, inIp, x, keys3, lo);
        i := Extend(node, x);
      }
    }

    /** The comparison from the fourth byte on. */
    method Extend(node: nat, ghost x: nat) returns (i: nat)
      requires Window() && x < p <= x + N && node == Slot(x) && 3 <= look && p + look <= |inp|
      requires forall k :: p <= k < p + 3 ==> inp[k] == inp[k - (p - x)]
      ensures 3 <= i <= look && Occurs(inp, p, p - x, i) && i == Common(inp, p, p - x, 0)
    {
      hide Slot, Ring, Common, Swd.Window;
      LookSize(node, x);
      i := 3;
      while i < look && b[bp + i] == b[node + i]
        invariant 3 <= i <= look
        invariant forall k :: p <= k < p + i ==> inp[k] == inp[k - (p - x)]
      {
        BytesAhead(node, x, i);
        i := i + 1;
      }
      if i < look { BytesAhead(node, x, i); }
      CommonIs(inp, p, p - x, 0, i);
    }

    lemma LookSize(node: nat, x: nat)
      requires Window() && x < p <= x + N && node == Slot(x)
      ensures look <= F && node < B && bp < B && |b| == B + F && (look >= 1 ==> look == F || p + look == |inp|)
    {
      hide Ring;
      RingSize(b, inp, p, inIp);
      RingEnd(b, inp, p, inIp);
    }

    /** The bytes i after both positions are those of the input. */
    lemma BytesAhead(node: nat, x: nat, i: nat)
      requires Window() && x < p <= x + N && node == Slot(x) && i < look && p + look <= |inp|
      ensures |b| == B + F && bp + i < |b| && node + i < |b| && b[bp + i] == inp[p + i] && b[node + i] == inp[x + i]
    {
      hide Ring, Slot;
      LookSize(node, x);
      ReadAhead(b, inp, p, inIp, p, i);
      ReadAhead(b, inp, p, inIp, x, i);
    }

    /** What the search has found so far, for the position p. */
    ghost predicate Found()
      reads this
    {
      && |bestPos| == BEST && 1 <= mLen <= look && bp == Slot(p)
      && (mLen >= 2 ==> Off(bp, mPos) >= 0 && Occurs(inp, p, Off(bp, mPos), mLen))
      && forall i {:trigger bestPos[i]} :: 2 <= i < BEST && bestPos[i] != 0 && useBestOff ==>
           Off(bp, bestPos[i] - 1) >= 0 && Occurs(inp, p, Off(bp, bestPos[i] - 1), i)
    }

    /** swd_search2: the most recent position with the same two bytes, if there is any. */
    method Search2() returns (hit: bool)
      requires Window() && Heads2(head2, at2, keys2, Lo(p), p) && Keyed2(b, keys2, Lo(p)) && |keys2| == p
      requires look >= 2 && Found()
      modifies this`mLen, this`mPos, this`bestPos
      ensures Found() && (mLen == old(mLen) || mLen == 2)
      ensures Repeated(inp, p) ==> hit && mLen >= 2 && bestPos[2] != 0
      ensures hit ==> mLen >= 2
    {
      hide Slot, Ring, Occurs, Key2At;
      RingSize(b, inp, p, inIp);
      Heads2Size(head2, at2, keys2, Lo(p), p);
      var k := Key2At(b, bp);
      var key := head2[k];
      if d: nat :| Occurs(inp, p, d, 2) {
        OccursIn(inp, p, d, 2);
        SameTwo(b, inp, p, inIp, p - d, keys2, Lo(p));
        NotNil(head2, at2, keys2, Lo(p), p, p - d);
      }
      if key == NIL2 { return false; }
      TwoEqual(b, inp, p, inIp, at2[k], keys2, Lo(p));
      OffOfSlot(at2[k], p);
      if bestPos[2] == 0 { bestPos := bestPos[2 := key + 1]; }
      if mLen < 2 { mLen, mPos := 2, key; }
      hit := true;
    }

    /** A candidate that was not skipped is recorded; the search stops if it is as long as can be, or longer than what
        the candidate itself had found. */
    method Take(i: nat, node: nat, ghost x: nat) returns (stop: bool)
      requires Found() && |best3| == B && x < p <= x + N && node == Slot(x) && mLen < look
      requires i == 0 || (3 <= i <= look && Occurs(inp, p, p - x, i))
      modifies this`mLen, this`mPos, this`bestPos
      ensures Found() && (old(bestPos[2]) != 0 ==> bestPos[2] != 0)
      ensures if i > old(mLen) then mLen == i && mPos == node else mLen == old(mLen) && mPos == old(mPos)
      ensures (mLen == look ==> stop) && (stop ==> i > old(mLen))
    {
      hide Slot, Occurs, Off;
      stop := false;
      if i != 0 {
        OffOfSlot(x, p);
        if i < BEST && bestPos[i] == 0 { bestPos := bestPos[i := node + 1]; }
        if i > mLen {
          mLen, mPos := i, node;
          stop := mLen == look || mLen >= F || mLen > best3[node];
        }
      }
    }

    /** No shorter than what occurs at position x, and if that is the whole lookahead, found there. */
    ghost predicate AtLeast(x: int, node0: nat)
      reads this`mLen, this`mPos, this`p, this`look
    {
      0 <= x < p && p <= |inp| ==>
        mLen >= Common(inp, p, p - x, 0) && (Common(inp, p, p - x, 0) == look ==> mLen == look && mPos == node0)
    }

    /** swd_search: follow the chain for at most cnt nodes. */
    method Search(node0: nat, cnt0: nat, ghost lo: nat, ghost all: nat)
      requires Window() && Keyed3(b, keys3, lo) && |keys3| == p + 1 && lo == Lo(p)
      requires Chains(head3, succ3, llen3, keys3, lo, p + 1) && ChainStart(keys3, lo, p, node0, all) && cnt0 <= all
      requires 3 <= look && Found() && 2 <= mLen < look
      modifies this`mLen, this`mPos, this`bestPos
      ensures Found() && mLen >= old(mLen) && (old(bestPos[2]) != 0 ==> bestPos[2] != 0)
      ensures cnt0 > 0 ==> AtLeast(LastOf(keys3, lo, p, keys3[p]), node0)
    {
      hide Slot, Ring, Occurs, Keyed3, Chains, Common, Off;
      var node, cnt := node0, cnt0;
      ghost var hi := p;
      assert p <= |inp| by { RingEnd(b, inp, p, inIp); }
      while cnt > 0
        invariant Found() && old(mLen) <= mLen < look && (old(bestPos[2]) != 0 ==> bestPos[2] != 0)
        invariant if hi == p then node == node0 && cnt == cnt0 else AtLeast(LastOf(keys3, lo, p, keys3[p]), node0)
        invariant lo <= hi <= p && ChainAt(keys3, lo, hi, keys3[p], node, cnt)
        decreases cnt
      {
        ghost var x := LastOf(keys3, lo, hi, keys3[p]);
        var i := Compare(node, mLen, x, lo);
        var stop := Take(i, node, x);
        if stop { return; }
        ChainNext(head3, succ3, llen3, keys3, lo, p, hi, node, cnt);
        node, cnt, hi := succ3[node], cnt - 1, x;
      }
    }

    /** What a search at position q reports.  At the last input byte (or past it) there is nothing to find,
        and best_off is left as the search before had it. */
    ghost predicate Reports(q: nat, len: nat, off: nat, oldBest: seq<nat>)
      reads this`bestOff
    {
      && len >= 1 && |bestOff| == BEST
      && (len >= 2 ==> Occurs(inp, q, off, len))
      && (q + 1 < |inp| && useBestOff ==> BestAt(inp, q, bestOff))
      && (q + 1 < |inp| && Repeated(inp, q) ==> len >= 2 && (useBestOff ==> bestOff[2] != 0))
      && (q + 1 >= |inp| ==> len == 1 && bestOff == oldBest)
    }

    /** All nonzero best_off entries are matches at q, unless q is the last byte and some entry was there before. */
    lemma {:induction false} BestExact(q: nat, len: nat, off: nat, oldBest: seq<nat>)
      requires Reports(q, len, off, oldBest)
      ensures q < |inp| && useBestOff ==> (BestAt(inp, q, bestOff) <==> q + 1 < |inp| || NoBest(oldBest))
    {
      if q + 1 >= |inp| && BestAt(inp, q, bestOff) {
        forall i | 2 <= i < |oldBest| ensures oldBest[i] == 0 {
          assert !Occurs(inp, q, bestOff[i], i);
        }
      }
    }

    /** best_off from best_pos */
    method SetBestOff()
      requires Found() && useBestOff && |bestOff| == BEST
      modifies this`bestOff
      ensures |bestOff| == BEST && BestAt(inp, p, bestOff) && (bestPos[2] != 0 ==> bestOff[2] != 0)
    {
      hide Occurs, Slot, Off;
      for i := 2 to BEST
        invariant |bestOff| == BEST && (i > 2 && bestPos[2] != 0 ==> bestOff[2] != 0)
        invariant forall j {:trigger bestOff[j]} :: 2 <= j < i && bestOff[j] != 0 ==> Occurs(inp, p, bestOff[j], j)
      {
        if bestPos[i] > 0 && useBestOff { OccursIn(inp, p, Off(bp, bestPos[i] - 1), i); }
        bestOff := bestOff[i := if bestPos[i] > 0 then Off(bp, bestPos[i] - 1) else 0];
      }
    }

    /** The two-byte table first; the chain only if that has an entry. */
    method SearchBoth(node: nat, cnt: nat, ghost all: nat)
      requires Window() && Tables(Lo(p), p + 1, p) && 1 == mLen < look
      requires ChainStart(keys3, Lo(p), p, node, all) && cnt <= all
      requires useBestOff ==> forall i {:trigger bestPos[i]} :: 2 <= i < BEST ==> bestPos[i] == 0
      modifies this`mLen, this`mPos, this`bestPos
      ensures Found() && (Repeated(inp, p) ==> mLen >= 2 && bestPos[2] != 0)
      ensures Repeated(inp, p) && look >= 3 && cnt > 0 ==> AtLeast(LastOf(keys3, Lo(p), p, keys3[p]), node)
    {
      hide Slot, Ring, Occurs, Chains, Keyed3, Keyed2, Heads2, ChainStart, Off, Repeated, AtLeast;
      var hit := Search2();
      if hit && look >= 3 { Search(node, cnt, Lo(p), all); }
    }

    /** Near the end of the input there are no three bytes left. */
    lemma ShallowEnd()
      requires Window() && look < 3
      ensures Deep(inp, p, mLen, mOff)
    {
      hide Ring, Slot, KeyOf, Common;
    }

    /** The first position of the chain is at the distance that is tried first. */
    lemma {:induction false} FirstIs(d: nat)
      requires Window() && Keyed3(b, keys3, Lo(p)) && |keys3| == p + 1 && look >= 3 && FirstTried(inp, p, d)
      ensures LastOf(keys3, Lo(p), p, keys3[p]) == p - d >= Lo(p) && Cnt(keys3, Lo(p), p, keys3[p]) > 0
    {
      hide Ring, Slot, Key3, Keyed3, LastOf, Cnt;
      RingSize(b, inp, p, inIp);
      forall y: nat | Lo(p) <= y <= p ensures y + 2 < |inp| && keys3[y] == KeyOf(inp, y) {
        KeyIs(y);
      }
      LastIs(keys3, Lo(p), p, keys3[p], p - d);
    }

    lemma {:induction false} KeyIs(y: nat)
      requires Window() && Keyed3(b, keys3, Lo(p)) && |keys3| == p + 1 && look >= 3 && Lo(p) <= y <= p
      ensures y + 2 < |inp| && keys3[y] == KeyOf(inp, y)
    {
      hide Ring, Slot, Key3;
      RingSize(b, inp, p, inIp);
      RingEnd(b, inp, p, inIp);
      ReadAhead(b, inp, p, inIp, y, 0);
      ReadAhead(b, inp, p, inIp, y, 1);
      ReadAhead(b, inp, p, inIp, y, 2);
    }

    lemma {:induction false} DeepHere(node: nat, cnt: nat, all: nat)
      requires Window() && Tables(Lo(p), p + 1, p) && p <= |inp| && (cnt > 0 || all == 0)
      requires ChainStart(keys3, Lo(p), p, node, all) && (mLen > 1 ==> mOff == Off(bp, mPos))
      requires Repeated(inp, p) && look >= 3 && cnt > 0 ==> AtLeast(LastOf(keys3, Lo(p), p, keys3[p]), node)
      ensures Deep(inp, p, mLen, mOff)
    {
      hide Slot, Ring, Keyed3, Keyed2, Chains, Heads2, LastOf, Cnt, Off, KeyOf, Repeated, Common, Occurs;
      LookIs();
      forall d: nat | d <= p && FirstTried(inp, p, d) && Common(inp, p, d, 0) >= 3
        ensures mLen >= Common(inp, p, d, 0)
        ensures Common(inp, p, d, 0) == F || p + Common(inp, p, d, 0) == |inp| ==> mLen == Common(inp, p, d, 0) && mOff == d
      {
        FirstIs(d);
        RepeatedAt(d);
        OffOfSlot(p - d, p);
      }
    }

    lemma RepeatedAt(d: nat)
      requires p <= |inp| && FirstTried(inp, p, d) && Common(inp, p, d, 0) >= 3
      ensures Repeated(inp, p) && 1 <= d <= p && d < B
    {
      hide KeyOf, Common;
      CommonSame(inp, p, d, 0);
      assert Occurs(inp, p, d, 2);
    }

    lemma LookIs()
      requires Window() && p <= |inp|
      ensures look == if |inp| - p < F then |inp| - p else F
    {
      hide Slot;
      RingEnd(b, inp, p, inIp);
    }

    /** The middle part of swd_findbest: the search proper, with position p entered in the chains only. */
    method Look(node: nat, cnt: nat, ghost all: nat)
      requires Window() && Tables(Lo(p), p + 1, p) && mLen == 1
      requires ChainStart(keys3, Lo(p), p, node, all) && cnt <= all
      requires useBestOff ==> forall i {:trigger bestPos[i]} :: 2 <= i < BEST ==> bestPos[i] == 0
      modifies this`mLen, this`mOff, this`mPos, this`bestPos, this`bestOff, this`best3, this`bChar
      ensures Window() && Reports(p, mLen, mOff, old(bestOff)) && (bChar < 0 <==> look == 0)
      ensures cnt > 0 || all == 0 ==> Deep(inp, p, mLen, mOff)
    {
      hide Slot, Ring, Occurs, Tables, ChainStart, Off, Repeated, BestAt, AtLeast, Deep;
      RingSize(b, inp, p, inIp);
      RingEnd(b, inp, p, inIp);
      bChar := b[bp];
      if mLen >= look {
        if look == 0 { bChar := -1; }
        mOff := 0;
        ShallowEnd();
        best3 := best3[bp := F + 1];
      } else {
        LookAhead(node, cnt, all);
      }
    }

    /** There are at least two bytes to look at. */
    method LookAhead(node: nat, cnt: nat, ghost all: nat)
      requires Window() && Tables(Lo(p), p + 1, p) && mLen == 1 && look >= 2 && p <= |inp|
      requires ChainStart(keys3, Lo(p), p, node, all) && cnt <= all
      requires useBestOff ==> forall i {:trigger bestPos[i]} :: 2 <= i < BEST ==> bestPos[i] == 0
      modifies this`mLen, this`mOff, this`mPos, this`bestPos, this`bestOff, this`best3
      ensures Window() && Reports(p, mLen, mOff, old(bestOff))
      ensures cnt > 0 || all == 0 ==> Deep(inp, p, mLen, mOff)
    {
      hide Slot, Ring, Occurs, Tables, ChainStart, Off, Repeated, BestAt, AtLeast, Deep;
      RingEnd(b, inp, p, inIp);
      SearchBoth(node, cnt, all);
      if mLen > 1 { mOff := Off(bp, mPos); }
      if cnt > 0 || all == 0 { DeepHere(node, cnt, all); }
      best3 := best3[bp := mLen];
      if useBestOff { SetBestOff(); }
    }

    /** swd_findbest: search at p, and move p's entry into both tables and the oldest one out. */
    method FindBest()
      requires Valid() && mLen == 1
      requires useBestOff ==> forall i {:trigger bestPos[i]} :: 2 <= i < BEST ==> bestPos[i] == 0
      modifies this`nodeCount, this`llen3, this`head2, this`head3, this`succ3, this`keys3, this`keys2, this`at2,
               this`mLen, this`mOff, this`mPos, this`bestPos, this`bestOff, this`best3, this`bChar
      ensures Window() && nodeCount == N - (p + 1 - Lo(p + 1)) && Tables(Lo(p + 1), p + 1, p + 1)
      ensures Reports(p, mLen, mOff, old(bestOff)) && (bChar < 0 <==> look == 0)
      ensures maxChain > 0 ==> Deep(inp, p, mLen, mOff)
    {
      hide Slot, Ring, Occurs, Tables, ChainStart, Deep;
      var node, all := Insert3(Lo(p), p);
      Look(node, if all > maxChain then maxChain else all, all);
      RemoveNode(p + 1, p);
      Insert2(Lo(p + 1), p + 1);
    }

    /** find_match: enter this_len - skip positions, then search at the next one, q. */
    method FindMatch(thisLen: nat, skip: nat) returns (len: nat, off: nat, avail: nat)
      requires Valid() && (skip > 0 ==> skip <= thisLen)
      modifies this
      ensures Valid() && maxChain == old(maxChain)
      ensures p == old(p) + (if skip > 0 then thisLen - skip else 0) + 1
      ensures var q := p - 1;
              && (avail > 0 <==> q < |inp|) && (avail > 0 ==> avail == (if |inp| - q <= F then |inp| - q else F + 1))
              && (avail == 0 ==> len == 0)
              && (avail > 0 ==> Reports(q, len, off, old(bestOff)))
              && (avail > 0 && maxChain > 0 ==> Deep(inp, q, len, off))
      ensures var q := p - 1;
              avail > 0 && useBestOff ==> (BestAt(inp, q, bestOff) <==> q + 1 < |inp| || NoBest(old(bestOff)))
    {
      hide Swd.Valid, Swd.Reports, BestAt, NoBest, Deep;
      if skip > 0 { Accept(thisLen - skip); }
      len, off, avail := FindNext();
      if avail > 0 { BestExact(p - 1, len, off, old(bestOff)); }
    }

    /** find_match without the positions to enter: search at p, and move on. */
    method FindNext() returns (len: nat, off: nat, avail: nat)
      requires Valid()
      modifies this
      ensures Valid() && maxChain == old(maxChain) && p == old(p) + 1
      ensures var q := p - 1;
              && (avail > 0 <==> q < |inp|) && (avail > 0 ==> avail == (if |inp| - q <= F then |inp| - q else F + 1))
              && (avail == 0 ==> len == 0)
              && (avail > 0 ==> Reports(q, len, off, old(bestOff)))
              && (avail > 0 && maxChain > 0 ==> Deep(inp, q, len, off))
    {
      hide Slot, Ring, Swd.Reports, Tables, BestAt, NoBest, Deep, Occurs, Repeated, Lo;
      mLen := 1;
      if useBestOff { bestPos := seq(BEST, _ => 0); }
      FindBest();
      len, off := mLen, mOff;
      RingEnd(b, inp, p, inIp);
      GetByte();
      if bChar < 0 {
        avail, len := 0, 0;
      } else {
        avail := look + 1;
      }
    }
  }

  /** The input abab: the match at position 2 leaves its distance in best_off, which is still there at position 3,
      where two bytes cannot occur any more. */
  method StaleBest(mem: seq<Byte>, h3: seq<nat>, s3: seq<nat>, b3: seq<nat>, bo: seq<nat>, bpos: seq<nat>, chain: nat) returns (swd: Swd)
    requires |mem| == B + F && |h3| == HSIZE && |s3| == |b3| == B && |bo| == |bpos| == BEST
    ensures swd.Valid() && swd.inp == [97, 98, 97, 98] && swd.p == 4
    ensures |swd.bestOff| == BEST && swd.bestOff[2] == 2 && !BestAt(swd.inp, 3, swd.bestOff)
  {
    hide Swd.Valid;
    swd := new Swd([97, 98, 97, 98], true, mem, h3, s3, b3, bo, bpos);
    swd.maxChain := chain;
    var len, off, avail := swd.FindMatch(0, 0);
    len, off, avail := swd.FindMatch(1, 0);
    len, off, avail := swd.FindMatch(1, 0);
    assert Occurs(swd.inp, 2, 2, 2);
    OccursIn(swd.inp, 2, swd.bestOff[2], 2);
    assert swd.bestOff[2] == 2 by { assert swd.inp[2] == swd.inp[2 - swd.bestOff[2]]; }
    len, off, avail := swd.FindMatch(1, 0);
  }

  lemma FirstRing(b: seq<Byte>, inp: seq<Byte>, mem: seq<Byte>, l: nat)
    requires |mem| == B + F && l <= F && l <= |inp| && b == inp[..l] + mem[l..]
    ensures Ring(b, inp, 0, l)
  {
  }

  lemma NoPositions(head3: seq<nat>, succ3: seq<nat>, llen3: seq<nat>, head2: seq<nat>, at2: seq<int>)
    requires |head3| == |llen3| == HSIZE && |succ3| == B && |head2| == |at2| == 0x10000
    requires (forall k :: 0 <= k < HSIZE ==> llen3[k] == 0) && (forall k :: 0 <= k < 0x10000 ==> head2[k] == NIL2)
    ensures Chains(head3, succ3, llen3, [], 0, 0) && Heads2(head2, at2, [], 0, 0)
  {
  }

  lemma SlotLap(x: nat)
    ensures Slot(x + B) == Slot(x)
  {
  }

  lemma RingEnd(b: seq<Byte>, inp: seq<Byte>, p: nat, end: nat)
    requires Ring(b, inp, p, end)
    ensures end <= |inp|
  {
  }

  lemma RingLess(b: seq<Byte>, inp: seq<Byte>, p: nat, end: nat)
    requires Ring(b, inp, p, end)
    ensures Ring(b, inp, p + 1, end)
  {
  }

  lemma ChainsSize(head3: seq<nat>, succ3: seq<nat>, llen3: seq<nat>, keys: seq<nat>, lo: nat, hi: nat)
    requires Chains(head3, succ3, llen3, keys, lo, hi)
    ensures |head3| == |llen3| == HSIZE && |succ3| == B
  {
  }

  lemma Heads2Size(head2: seq<nat>, at2: seq<int>, keys2: seq<nat>, lo: nat, hi: nat)
    requires Heads2(head2, at2, keys2, lo, hi)
    ensures |head2| == |at2| == 0x10000
  {
  }

  lemma {:induction false} ThreeEqual(b: seq<Byte>, inp: seq<Byte>, p: nat, end: nat, x: nat, keys3: seq<nat>, lo: nat)
    requires Ring(b, inp, p, end) && Keyed3(b, keys3, lo) && lo <= x < p < |keys3| && p <= lo + N && p + 3 <= end
    requires keys3[x] == keys3[p] && b[Slot(x)] == b[Slot(p)] && b[Slot(x) + 1] == b[Slot(p) + 1]
    ensures forall k :: p <= k < p + 3 ==> inp[k] == inp[k - (p - x)]
  {
    hide Slot, Ring, Key3;
    RingEnd(b, inp, p, end);
    ReadAhead(b, inp, p, end, x, 0);
    ReadAhead(b, inp, p, end, p, 0);
    ReadAhead(b, inp, p, end, x, 1);
    ReadAhead(b, inp, p, end, p, 1);
    ReadAhead(b, inp, p, end, x, 2);
    ReadAhead(b, inp, p, end, p, 2);
    Key3Injective(inp[p], inp[p + 1], inp[p + 2], inp[x + 2]);
  }

  /** A position with the same bytes passes the tests that come first. */
  lemma {:induction false} NotSkipped(b: seq<Byte>, inp: seq<Byte>, p: nat, end: nat, x: nat, len: nat)
    requires Ring(b, inp, p, end) && x < p <= x + N && p <= |inp| && 2 <= len < Common(inp, p, p - x, 0) && p + len < end <= |inp| && len < F
    ensures |b| == B + F && Slot(x) + len < B + F && Slot(p) + len < B + F
    ensures b[Slot(x) + len - 1] == b[Slot(p) + len - 1] && b[Slot(x) + len] == b[Slot(p) + len]
    ensures b[Slot(x)] == b[Slot(p)] && b[Slot(x) + 1] == b[Slot(p) + 1]
  {
    hide Slot, Ring, Common;
    RingSize(b, inp, p, end);
    CommonSame(inp, p, p - x, 0);
    BothAhead(b, inp, p, end, x, len - 1);
    BothAhead(b, inp, p, end, x, len);
    BothAhead(b, inp, p, end, x, 0);
    BothAhead(b, inp, p, end, x, 1);
  }

  lemma BothAhead(b: seq<Byte>, inp: seq<Byte>, p: nat, end: nat, x: nat, j: nat)
    requires Ring(b, inp, p, end) && x < p <= x + N && p + j < end <= |inp| && j <= F && inp[p + j] == inp[p + j - (p - x)]
    ensures Slot(x) + j < B + F && Slot(p) + j < B + F && |b| == B + F && b[Slot(x) + j] == b[Slot(p) + j]
  {
    hide Slot, Ring;
    RingSize(b, inp, p, end);
    ReadAhead(b, inp, p, end, x, j);
    ReadAhead(b, inp, p, end, p, j);
  }

  lemma {:induction false} SameTwo(b: seq<Byte>, inp: seq<Byte>, p: nat, end: nat, x: nat, keys2: seq<nat>, lo: nat)
    requires Ring(b, inp, p, end) && Keyed2(b, keys2, lo) && lo <= x < p <= lo + N && x < |keys2| && p + 2 <= end
    requires |b| == B + F && Occurs(inp, p, p - x, 2)
    ensures keys2[x] == Key2At(b, Slot(p))
  {
    hide Slot, Ring;
    ReadAhead(b, inp, p, end, x, 0);
    ReadAhead(b, inp, p, end, p, 0);
    ReadAhead(b, inp, p, end, x, 1);
    ReadAhead(b, inp, p, end, p, 1);
    RingEnd(b, inp, p, end);
    assert inp[p] == inp[p - (p - x)] && inp[p + 1] == inp[p + 1 - (p - x)];
  }

  lemma OccursIn(inp: seq<Byte>, q: nat, d: nat, len: nat)
    requires Occurs(inp, q, d, len)
    ensures 1 <= d <= q && d <= N && q + len <= |inp|
  {
  }

  lemma NotNil(head2: seq<nat>, at2: seq<int>, keys2: seq<nat>, lo: nat, hi: nat, x: nat)
    requires Heads2(head2, at2, keys2, lo, hi) && lo <= x < hi
    ensures keys2[x] < |head2| && head2[keys2[x]] != NIL2
  {
  }

  lemma {:induction false} TwoEqual(b: seq<Byte>, inp: seq<Byte>, p: nat, end: nat, x: nat, keys2: seq<nat>, lo: nat)
    requires Ring(b, inp, p, end) && Keyed2(b, keys2, lo) && lo <= x < p <= lo + N && x < |keys2| && p + 2 <= end
    requires |b| == B + F && keys2[x] == Key2At(b, Slot(p))
    ensures Occurs(inp, p, p - x, 2)
  {
    hide Slot, Ring;
    ReadAhead(b, inp, p, end, x, 0);
    ReadAhead(b, inp, p, end, p, 0);
    ReadAhead(b, inp, p, end, x, 1);
    ReadAhead(b, inp, p, end, p, 1);
    RingEnd(b, inp, p, end);
  }

  /** At least cnt positions in lo..hi have key k, and `node` is the last of them. */
  ghost predicate ChainAt(keys: seq<nat>, lo: nat, hi: nat, k: nat, node: nat, cnt: nat) {
    && lo <= hi <= |keys| && cnt <= Cnt(keys, lo, hi, k)
    && (cnt > 0 ==> LastOf(keys, lo, hi, k) >= lo && node == Slot(LastOf(keys, lo, hi, k)))
  }

  /** succ3 leads to the next one. */
  lemma {:induction false} ChainNext(head3: seq<nat>, succ3: seq<nat>, llen3: seq<nat>, keys: seq<nat>, lo: nat, p: nat, hi: nat, node: nat, cnt: nat)
    requires Chains(head3, succ3, llen3, keys, lo, p + 1) && lo <= hi <= p < |keys|
    requires ChainAt(keys, lo, hi, keys[p], node, cnt) && cnt > 0
    ensures node < |succ3|
    ensures var x := LastOf(keys, lo, hi, keys[p]); x >= lo && ChainAt(keys, lo, x, keys[p], succ3[node], cnt - 1)
  {
    hide Slot;
    CntLast(keys, lo, hi, keys[p]);
    var x := LastOf(keys, lo, hi, keys[p]);
    if cnt > 1 {
      CntLast(keys, lo, x, keys[p]);
      assert keys[x] == keys[p];
    }
  }
}
