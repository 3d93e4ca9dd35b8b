/** The header of a dynamic block: build_bl_tree, send_tree and send_all_trees, and why reading gives both codes back. */
module DeflateTrees {
  import opened Arithmetic
  import opened BitSeq
  import opened HuffmanCodes
  import opened BitWriter
  import opened DeflateFormat
  import opened DeflateTokens
  import opened DeflateRuns

  // ---------- sending ----------

  /** SEND_CODE */
  method SendCode(w: Writer, codes: seq<nat>, lens: seq<nat>, c: nat)
    requires w.Valid() && Codes(codes, lens) && c < |codes| && lens[c] != 0
    modifies w, w.outbuf
    ensures w.Valid() && HasCode(lens, c) && w.Bits() == old(w.Bits()) + CodeSeq(lens, c)
  {
    hide CodeLens, Reverse, CodeOf, Pow2, LowBits, CodeBits;
    ReverseFits(CodeOf(lens, c), lens[c]);
    ReversedBits(CodeOf(lens, c), lens[c]);
    w.SendBits(codes[c], lens[c]);
  }

  /** A run's code and its repeat count. */
  method SendRun(w: Writer, codes: seq<nat>, cl: seq<nat>, r: Run)
    requires w.Valid() && Codes(codes, cl) && RunCovered(cl, r) && RunSym(r) < |codes|
    modifies w, w.outbuf
    ensures w.Valid() && w.Bits() == old(w.Bits()) + EncRun(cl, r)
  {
    hide Codes, Pow2, LowBits, CodeSeq;
    SendCode(w, codes, cl, RunSym(r));
    Powers();
    if !r.Len? { w.SendBits(RunExtra(r).0, RunExtra(r).1); } else { assert LowBits(0, 0) == [] by { Empties(); } }
  }

  /** All bit length codes that the runs need exist. */
  ghost predicate Sendable(codes: seq<nat>, cl: seq<nat>, runs: seq<Run>) {
    Codes(codes, cl) && RunsCovered(cl, runs) && forall i :: 0 <= i < |runs| ==> RunSym(runs[i]) < |codes|
  }

  lemma SendableParts(codes: seq<nat>, cl: seq<nat>, a: seq<Run>, b: seq<Run>)
    requires Sendable(codes, cl, a + b)
    ensures Sendable(codes, cl, a) && Sendable(codes, cl, b) && EncRuns(cl, a + b) == EncRuns(cl, a) + EncRuns(cl, b)
  {
    hide Codes, SoundRun, HasCode;
    forall i | 0 <= i < |a| ensures RunCovered(cl, a[i]) && RunSym(a[i]) < |codes| { assert (a + b)[i] == a[i]; }
    forall i | 0 <= i < |b| ensures RunCovered(cl, b[i]) && RunSym(b[i]) < |codes| { assert (a + b)[|a| + i] == b[i]; }
    EncRunsAppend(cl, a, b);
  }

  /** What send_tree does with a finished run. */
  method SendRuns(w: Writer, codes: seq<nat>, cl: seq<nat>, curlen: nat, count0: nat, prevlen: int, minCount: nat)
    requires w.Valid() && curlen < 16 && 1 <= count0 <= MaxCount(curlen, prevlen) && minCount == MinCount(curlen, prevlen)
    requires Sendable(codes, cl, Emit(curlen, count0, prevlen))
    modifies w, w.outbuf
    ensures w.Valid() && w.Bits() == old(w.Bits()) + EncRuns(cl, Emit(curlen, count0, prevlen))
  {
    hide Codes, EncRuns, EncRun, Writer.Bits, Writer.Valid;
    ghost var all := Emit(curlen, count0, prevlen);
    var count := count0;
    if count < minCount {
      SendSingles(w, codes, cl, curlen, count);
    } else if curlen != 0 {
      if curlen != prevlen {
        assert all[0] == Len(curlen) && all[1] == Rep(count0 - 1);
        SendRun(w, codes, cl, Len(curlen));
        count := count - 1;
        TwoRuns(cl, Len(curlen), Rep(count));
      } else {
        assert all[0] == Rep(count0);
        TwoRuns(cl, Rep(count), Rep(count));
      }
      SendRun(w, codes, cl, Rep(count));
    } else {
      assert all[0] == Zeros(count);
      TwoRuns(cl, Zeros(count), Zeros(count));
      SendRun(w, codes, cl, Zeros(count));
    }
  }

  lemma TwoRuns(cl: seq<nat>, a: Run, b: Run)
    requires RunCovered(cl, a) && RunCovered(cl, b)
    ensures RunsCovered(cl, [a]) && EncRuns(cl, [a]) == EncRun(cl, a)
    ensures RunsCovered(cl, [a, b]) && EncRuns(cl, [a, b]) == EncRun(cl, a) + EncRun(cl, b)
  {
    hide RunCovered, EncRun;
    assert [a][1..] == [] && [a, b][1..] == [b] && [b][1..] == [];
    assert EncRuns(cl, []) == [];
    assert EncRuns(cl, [b]) == EncRun(cl, b);
  }

  lemma {:induction false} MoreSingles(cl: seq<nat>, cur: nat, k: nat)
    requires RunCovered(cl, Len(cur))
    ensures RunsCovered(cl, Singles(cur, k)) && RunsCovered(cl, Singles(cur, k + 1))
    ensures EncRuns(cl, Singles(cur, k + 1)) == EncRuns(cl, Singles(cur, k)) + EncRun(cl, Len(cur))
  {
    hide RunCovered, EncRun, EncRuns;
    assert Singles(cur, k + 1) == Singles(cur, k) + [Len(cur)];
    EncRunsAppend(cl, Singles(cur, k), [Len(cur)]);
    TwoRuns(cl, Len(cur), Len(cur));
  }

  /** A short run is sent length by length. */
  method SendSingles(w: Writer, codes: seq<nat>, cl: seq<nat>, curlen: nat, count: nat)
    requires w.Valid() && count >= 1 && curlen < 16 && Sendable(codes, cl, Singles(curlen, count))
    modifies w, w.outbuf
    ensures w.Valid() && w.Bits() == old(w.Bits()) + EncRuns(cl, Singles(curlen, count))
  {
    hide Codes, EncRun, EncRuns, Writer.Bits, Writer.Valid;
    assert Singles(curlen, count)[0] == Len(curlen);
    var k := 0;
    MoreSingles(cl, curlen, 0);
    assert EncRuns(cl, Singles(curlen, 0)) == [] by { NoSingles(cl, curlen); }
    while k < count
      invariant 0 <= k <= count && w.Valid() && RunsCovered(cl, Singles(curlen, k))
      invariant w.Bits() == old(w.Bits()) + EncRuns(cl, Singles(curlen, k))
    {
      MoreSingles(cl, curlen, k);
      SendRun(w, codes, cl, Len(curlen));
      k := k + 1;
    }
  }

  lemma NoSingles(cl: seq<nat>, cur: nat)
    ensures RunsCovered(cl, Singles(cur, 0)) && EncRuns(cl, Singles(cur, 0)) == []
  {
    assert Singles(cur, 0) == [];
  }

  /** send_tree: exactly the runs of the lengths. */
  method SendTree(w: Writer, codes: seq<nat>, cl: seq<nat>, lens: seq<nat>)
    requires w.Valid() && lens != [] && (forall i :: 0 <= i < |lens| ==> lens[i] < 16) && Sendable(codes, cl, Runs(lens))
    modifies w, w.outbuf
    ensures w.Valid() && w.Bits() == old(w.Bits()) + EncRuns(cl, Runs(lens))
  {
    hide Codes, Emit, EncRuns, RunsFrom, Sendable, RunsCovered, Writer.Bits, Writer.Valid;
    SendableCovered(codes, cl, Runs(lens));
    var tree := lens + [GUARD];
    var prevlen, nextlen, count, maxCount, minCount := -1, tree[0], 0, 7, 4;
    if nextlen == 0 { maxCount, minCount := 138, 3; }
    ghost var done: seq<Run> := [];
    NothingSent(codes, cl);
    assert [] + Runs(lens) == Runs(lens);
    for n := 0 to |lens|
      invariant w.Valid() && nextlen == tree[n] && count < maxCount
      invariant maxCount == MaxCount(nextlen, prevlen) && minCount == MinCount(nextlen, prevlen)
      invariant done + RunsFrom(lens, n, prevlen, count) == Runs(lens)
      invariant RunsCovered(cl, done) && w.Bits() == old(w.Bits()) + EncRuns(cl, done)
    {
      var curlen := nextlen;
      nextlen := tree[n + 1];
      RunStep(lens, n, prevlen, count);
      count := count + 1;
      if count < maxCount && curlen == nextlen { continue; }
      ghost var emit := Emit(curlen, count, prevlen);
      ghost var rest := RunsFrom(lens, n + 1, curlen, 0);
      assert done + (emit + rest) == (done + emit) + rest;
      SendableParts(codes, cl, done + emit, rest);
      SendableParts(codes, cl, done, emit);
      SendableCovered(codes, cl, done + emit);
      SendRuns(w, codes, cl, curlen, count, prevlen, minCount);
      done := done + emit;
      count := 0;
      prevlen := curlen;
      maxCount, minCount := NextCounts(nextlen, curlen);
    }
    AllSent(lens, prevlen, count);
    assert done == Runs(lens);
  }

  lemma SendableCovered(codes: seq<nat>, cl: seq<nat>, runs: seq<Run>)
    requires Sendable(codes, cl, runs)
    ensures RunsCovered(cl, runs) && Codes(codes, cl)
  {
  }

  lemma NothingSent(codes: seq<nat>, cl: seq<nat>)
    ensures RunsCovered(cl, []) && EncRuns(cl, []) == []
  {
  }

  lemma AllSent(lens: seq<nat>, prev: int, count: nat)
    ensures RunsFrom(lens, |lens|, prev, count) == []
  {
  }

  // ---------- the order of the bit length codes ----------

  const ORDER_OF: seq<nat> := [3, 17, 15, 13, 11, 9, 7, 5, 4, 6, 8, 10, 12, 14, 16, 18, 0, 1, 2]

  /** bl_order lists every bit length code once. */
  lemma OrderInverse(k: nat)
    requires k < BL_CODES
    ensures BL_ORDER[k] < BL_CODES && ORDER_OF[BL_ORDER[k]] == k
    ensures ORDER_OF[k] < BL_CODES && BL_ORDER[ORDER_OF[k]] == k
    ensures k >= 3 ==> BL_ORDER[k] < 16
    ensures k < 16 ==> ORDER_OF[k] >= 3
  {
    assert k == 0 || k == 1 || k == 2 || k == 3 || k == 4 || k == 5 || k == 6 || k == 7 || k == 8 || k == 9 || k == 10
        || k == 11 || k == 12 || k == 13 || k == 14 || k == 15 || k == 16 || k == 17 || k == 18;
  }

  ghost predicate ShortLens(cl: seq<nat>) {
    |cl| == BL_CODES && forall i :: 0 <= i < |cl| ==> cl[i] < 8
  }

  /** The lengths from the k-th to the n-th in the order. */
  ghost function EncOrder(cl: seq<nat>, k: nat, n: nat): seq<Bit>
    requires k <= n <= BL_CODES == |cl|
    decreases n - k
  {
    if k == n then [] else OrderInverse(k); LowBits(cl[BL_ORDER[k]], 3) + EncOrder(cl, k + 1, n)
  }

  /** acc agrees with cl on the first k codes of the order and is zero on the others. */
  ghost predicate Partial(cl: seq<nat>, acc: seq<nat>, k: nat) {
    |cl| == |acc| == BL_CODES && forall s :: 0 <= s < BL_CODES ==> acc[s] == if ORDER_OF[s] < k then cl[s] else 0
  }

  lemma {:induction false} OrderBack(cl: seq<nat>, acc: seq<nat>, k: nat, n: nat, rest: seq<Bit>)
    requires ShortLens(cl) && k <= n <= BL_CODES && Partial(cl, acc, k)
    requires forall s :: 0 <= s < BL_CODES && ORDER_OF[s] >= n ==> cl[s] == 0
    ensures ReadOrder(EncOrder(cl, k, n) + rest, k, n, acc) == Got(cl, rest)
    decreases n - k
  {
    hide LowBits, ReadBits, Pow2;
    if k == n {
      assert acc == cl;
      assert EncOrder(cl, k, n) + rest == rest;
    } else {
      OrderInverse(k);
      var s := BL_ORDER[k];
      var more := EncOrder(cl, k + 1, n) + rest;
      assert EncOrder(cl, k, n) + rest == LowBits(cl[s], 3) + more;
      Powers();
      BitsBack(cl[s], 3, more);
      PartialStep(cl, acc, k);
      OrderBack(cl, acc[s := cl[s]], k + 1, n, rest);
    }
  }

  lemma PartialStep(cl: seq<nat>, acc: seq<nat>, k: nat)
    requires Partial(cl, acc, k) && k < BL_CODES && BL_ORDER[k] < BL_CODES
    ensures Partial(cl, acc[BL_ORDER[k] := cl[BL_ORDER[k]]], k + 1)
  {
    OrderInverse(k);
    forall s | 0 <= s < BL_CODES && ORDER_OF[s] == k ensures s == BL_ORDER[k] { OrderInverse(s); }
  }

  // ---------- the whole header ----------

  ghost predicate HeaderFit(ll: seq<nat>, dl: seq<nat>, cl: seq<nat>, n: nat) {
    && 257 <= |ll| <= 286 && 1 <= |dl| <= 30 && 4 <= n <= BL_CODES && ShortLens(cl) && CodeLens(cl)
    && (forall i :: 0 <= i < |ll| ==> ll[i] < 16) && (forall i :: 0 <= i < |dl| ==> dl[i] < 16)
    && CompleteCode(cl) && CompleteCode(ll) && CompleteCode(dl) && ll[END_BLOCK] != 0
    && RunsCovered(cl, Runs(ll)) && RunsCovered(cl, Runs(dl))
    && (forall s :: 0 <= s < BL_CODES && ORDER_OF[s] >= n ==> cl[s] == 0)
  }

  ghost function HeaderCounts(ll: seq<nat>, dl: seq<nat>, n: nat): (r: seq<Bit>)
    requires 257 <= |ll| && 1 <= |dl| && 4 <= n
    ensures |r| == 14
  {
    LowBits(|ll| - 257, 5) + LowBits(|dl| - 1, 5) + LowBits(n - 4, 4)
  }

  /** The bits of the header: the counts, the bit length code, and both codes as runs. */
  ghost function Header(ll: seq<nat>, dl: seq<nat>, cl: seq<nat>, n: nat): seq<Bit>
    requires HeaderFit(ll, dl, cl, n)
  {
    HeaderCounts(ll, dl, n) + EncOrder(cl, 0, n) + EncRuns(cl, Runs(ll)) + EncRuns(cl, Runs(dl))
  }

  lemma {:induction false} CountsBack(ll: seq<nat>, dl: seq<nat>, n: nat, more: seq<Bit>)
    requires 257 <= |ll| <= 286 && 1 <= |dl| <= 30 && 4 <= n <= BL_CODES
    ensures var next := HeaderCounts(ll, dl, n) + more;
            && 257 + Number(next[..5]) == |ll| && 1 + Number(next[5..10]) == |dl| && 4 + Number(next[10..14]) == n
            && next[14..] == more
  {
    hide LowBits, Number, Pow2;
    var a, b, c := LowBits(|ll| - 257, 5), LowBits(|dl| - 1, 5), LowBits(n - 4, 4);
    var next := HeaderCounts(ll, dl, n) + more;
    assert next[..5] == a && next[5..10] == b && next[10..14] == c && next[14..] == more;
    Powers();
    NumberOfLowBits(|ll| - 257, 5);
    NumberOfLowBits(|dl| - 1, 5);
    NumberOfLowBits(n - 4, 4);
  }

  lemma {:induction false} BothBack(ll: seq<nat>, dl: seq<nat>, cl: seq<nat>, n: nat, rest: seq<Bit>)
    requires HeaderFit(ll, dl, cl, n)
    ensures ReadLengths(cl, |ll| + |dl|, EncRuns(cl, Runs(ll)) + EncRuns(cl, Runs(dl)) + rest, []) == Got(ll + dl, rest)
  {
    hide CodeLens, CompleteCode, EncRuns, RunsFrom, Expand, RunsCovered, ReadLengths, Expandable;
    RunsExpand(ll, 0, -1, 0, []);
    RunsExpand(dl, 0, -1, 0, ll);
    assert [] + ll[..0] == [] && [] + ll == ll && ll + dl[..0] == ll;
    ExpandAppend([], Runs(ll), Runs(dl));
    EncRunsAppend(cl, Runs(ll), Runs(dl));
    LengthsBack(cl, Runs(ll) + Runs(dl), [], rest);
  }

  /** Both codes are read back from the header. */
  lemma {:induction false} HeaderBack(ll: seq<nat>, dl: seq<nat>, cl: seq<nat>, n: nat, rest: seq<Bit>)
    requires HeaderFit(ll, dl, cl, n)
    ensures ReadTrees(Header(ll, dl, cl, n) + rest) == Got(Trees(ll, dl), rest)
  {
    hide CodeLens, CompleteCode, EncRuns, RunsFrom, RunsCovered, ReadLengths, ReadOrder, HeaderCounts, Number, EncOrder;
    var runs := EncRuns(cl, Runs(ll)) + EncRuns(cl, Runs(dl)) + rest;
    var order := EncOrder(cl, 0, n);
    assert Header(ll, dl, cl, n) + rest == HeaderCounts(ll, dl, n) + (order + runs);
    CountsBack(ll, dl, n, order + runs);
    OrderBack(cl, Times(0, BL_CODES), 0, n, runs);
    BothBack(ll, dl, cl, n, rest);
    assert (ll + dl)[..|ll|] == ll && (ll + dl)[|ll|..] == dl;
  }

  /** send_all_trees */
  method SendAllTrees(w: Writer, ll: seq<nat>, dl: seq<nat>, cl: seq<nat>, codes: seq<nat>, blcodes: nat)
    requires w.Valid() && HeaderFit(ll, dl, cl, blcodes) && Sendable(codes, cl, Runs(ll)) && Sendable(codes, cl, Runs(dl))
    modifies w, w.outbuf
    ensures w.Valid() && w.Bits() == old(w.Bits()) + Header(ll, dl, cl, blcodes)
  {
    hide CodeLens, EncRuns, RunsFrom, RunsCovered, Sendable, LowBits, Pow2, EncOrder, Writer.Bits, Writer.Valid;
    Powers();
    w.SendBits(|ll| - 257, 5);
    w.SendBits(|dl| - 1, 5);
    w.SendBits(blcodes - 4, 4);
    ghost var counts := w.Bits();
    assert counts == old(w.Bits()) + HeaderCounts(ll, dl, blcodes);
    SendOrder(w, cl, blcodes);
    SendTree(w, codes, cl, ll);
    SendTree(w, codes, cl, dl);
    assert w.Bits() == counts + EncOrder(cl, 0, blcodes) + EncRuns(cl, Runs(ll)) + EncRuns(cl, Runs(dl));
    Associate(old(w.Bits()), HeaderCounts(ll, dl, blcodes), EncOrder(cl, 0, blcodes), EncRuns(cl, Runs(ll)), EncRuns(cl, Runs(dl)));
  }

  lemma Associate(a: seq<Bit>, b: seq<Bit>, c: seq<Bit>, d: seq<Bit>, e: seq<Bit>)
    ensures a + b + c + d + e == a + (b + c + d + e)
  {
  }

  method SendOrder(w: Writer, cl: seq<nat>, blcodes: nat)
    requires w.Valid() && ShortLens(cl) && blcodes <= BL_CODES
    modifies w, w.outbuf
    ensures w.Valid() && w.Bits() == old(w.Bits()) + EncOrder(cl, 0, blcodes)
  {
    hide LowBits, Pow2, Writer.Bits, Writer.Valid;
    var rank := 0;
    while rank < blcodes
      invariant 0 <= rank <= blcodes && w.Valid()
      invariant w.Bits() + EncOrder(cl, rank, blcodes) == old(w.Bits()) + EncOrder(cl, 0, blcodes)
    {
      OrderInverse(rank);
      Powers();
      ghost var before := w.Bits();
      w.SendBits(cl[BL_ORDER[rank]], 3);
      assert before + EncOrder(cl, rank, blcodes) == w.Bits() + EncOrder(cl, rank + 1, blcodes);
      rank := rank + 1;
    }
    assert EncOrder(cl, blcodes, blcodes) == [];
  }
}
