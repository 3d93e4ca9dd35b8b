/** The second half of the repair in gen_bitlen: dealing the repaired lengths out to the leaves. */
module HuffmanAssign {
  import opened Arithmetic
  import opened HuffmanMerge
  import opened HuffmanSums
  import opened HuffmanLengths
  import opened HuffmanRepair

  ghost function LeafTotal(xs: seq<nat>, elems: nat): int {
    SumSeq(xs, (x: nat) => IsLeaf(elems, x))
  }

  ghost function LenTotal(xs: seq<nat>, lens: seq<nat>, elems: nat, b: nat): int {
    SumSeq(xs, (x: nat) => LenIs(lens, elems, b, x))
  }

  /** order[h..] has its lengths; `n` leaves of length `bits` and all shorter ones are still to be dealt out. */
  ghost predicate Dealing(lens: seq<nat>, order: seq<nat>, elems: nat, bl: seq<nat>, max: nat, h: nat, bits: nat, n: nat) {
    && |bl| == MAX_BITS + 1 && h <= |order| && bits <= max <= MAX_BITS && n <= bl[bits] && bl[0] == 0
    && (forall i :: 0 <= i < |order| ==> order[i] < |lens|)
    && (forall i {:trigger order[i]} :: h <= i < |order| && order[i] < elems ==> 1 <= lens[order[i]] <= max)
    && (forall b :: 0 <= b <= MAX_BITS ==> LenTotal(order[h..], lens, elems, b) == Dealt(bl, bits, n, b))
    && LeafTotal(order[..h], elems) == n + (if bits == 0 then 0 else CountUpTo(bl, bits - 1))
  }

  /** The number of leaves of length b that have been dealt out. */
  function Dealt(bl: seq<nat>, bits: nat, n: nat, b: nat): int
    requires b < |bl|
  {
    if b > bits then bl[b] else if b == bits then bl[b] - n else 0
  }

  lemma {:induction false} DealStart(lens: seq<nat>, order: seq<nat>, elems: nat, bl: seq<nat>, max: nat, leaves: int)
    requires Repairing(bl, max, 0, leaves) && leaves == LeafTotal(order, elems)
    requires forall i :: 0 <= i < |order| ==> order[i] < |lens|
    ensures Dealing(lens, order, elems, bl, max, |order|, max, bl[max])
  {
    hide Kraft, Pow2;
    assert order[|order|..] == [];
    assert order[..|order|] == order;
    assert forall b :: LenTotal([], lens, elems, b) == 0;
  }

  lemma {:induction false} DealShorter(lens: seq<nat>, order: seq<nat>, elems: nat, bl: seq<nat>, max: nat, h: nat, bits: nat)
    requires Dealing(lens, order, elems, bl, max, h, bits, 0) && bits > 0
    ensures Dealing(lens, order, elems, bl, max, h, bits - 1, bl[bits - 1])
  {
    hide SumSeq;
    assert CountUpTo(bl, 0) == bl[0];
  }

  lemma {:induction false} SumCons(order: seq<nat>, h: nat, g: nat -> int)
    requires h < |order|
    ensures SumSeq(order[h..], g) == g(order[h]) + SumSeq(order[h + 1..], g)
  {
    hide SumSeq;
    assert order[h..] == [order[h]] + order[h + 1..];
    SumAppend([order[h]], order[h + 1..], g);
    SumOne(order[h], g);
  }

  /** As long as leaves are due, the walk has not reached the start of the list. */
  lemma {:induction false} DealMore(lens: seq<nat>, order: seq<nat>, elems: nat, bl: seq<nat>, max: nat, h: nat, bits: nat, n: nat)
    requires Dealing(lens, order, elems, bl, max, h, bits, n) && n > 0
    ensures h > 0 && order[h - 1] < |lens| && bits > 0
  {
    assert order[..0] == [];
    EmptySum((x: nat) => IsLeaf(elems, x));
  }

  lemma {:induction false} DealSkip(lens: seq<nat>, order: seq<nat>, elems: nat, bl: seq<nat>, max: nat, h: nat, bits: nat, n: nat)
    requires Dealing(lens, order, elems, bl, max, h, bits, n) && h > 0 && order[h - 1] >= elems
    ensures Dealing(lens, order, elems, bl, max, h - 1, bits, n)
  {
    hide SumSeq, CountUpTo;
    SumSnoc(order, h - 1, (x: nat) => IsLeaf(elems, x));
    forall b | 0 <= b <= MAX_BITS ensures LenTotal(order[h - 1..], lens, elems, b) == Dealt(bl, bits, n, b) {
      SumCons(order, h - 1, (x: nat) => LenIs(lens, elems, b, x));
    }
  }

  lemma {:induction false} DealOne(lens: seq<nat>, order: seq<nat>, elems: nat, bl: seq<nat>, max: nat, h: nat, bits: nat, n: nat)
    requires Dealing(lens, order, elems, bl, max, h, bits, n) && h > 0 && order[h - 1] < elems && n > 0 && bits > 0
    requires forall i :: h <= i < |order| ==> order[i] != order[h - 1]
    ensures Dealing(lens[order[h - 1] := bits], order, elems, bl, max, h - 1, bits, n - 1)
  {
    hide SumSeq, CountUpTo;
    var lens', due, rest := lens[order[h - 1] := bits], n - 1, order[h - 1..];
    SumSnoc(order, h - 1, (x: nat) => IsLeaf(elems, x));
    forall b | 0 <= b <= MAX_BITS ensures LenTotal(rest, lens', elems, b) == Dealt(bl, bits, due, b) {
      var g, g' := (x: nat) => LenIs(lens, elems, b, x), (x: nat) => LenIs(lens', elems, b, x);
      SumCons(order, h - 1, g');
      SumSame(order[h..], g, g');
      assert LenTotal(order[h..], lens, elems, b) == Dealt(bl, bits, n, b);
    }
  }

  lemma {:induction false} NoLeafLeft(order: seq<nat>, h: nat, elems: nat)
    requires h <= |order| && LeafTotal(order[..h], elems) == 0
    ensures forall i :: 0 <= i < h ==> order[i] >= elems
    decreases h
  {
    if h > 0 {
      SumSnoc(order, h - 1, (x: nat) => IsLeaf(elems, x));
      LeafCount(order, h - 1, elems);
      NoLeafLeft(order, h - 1, elems);
    }
  }

  lemma {:induction false} LeafCount(order: seq<nat>, h: nat, elems: nat)
    requires h <= |order|
    ensures LeafTotal(order[..h], elems) >= 0
    decreases h
  {
    if h > 0 {
      SumSnoc(order, h - 1, (x: nat) => IsLeaf(elems, x));
      LeafCount(order, h - 1, elems);
    }
  }

  /** When everything is dealt out, the counts describe the whole list. */
  lemma {:induction false} DealEnd(lens: seq<nat>, order: seq<nat>, elems: nat, bl: seq<nat>, max: nat, h: nat)
    requires Dealing(lens, order, elems, bl, max, h, 0, 0)
    ensures Counted(bl, order, lens, elems)
    ensures forall i {:trigger order[i]} :: 0 <= i < |order| && order[i] < elems ==> 1 <= lens[order[i]] <= max
  {
    hide SumSeq, CountUpTo;
    NoLeafLeft(order, h, elems);
    assert order == order[..h] + order[h..];
    forall b | 0 <= b <= MAX_BITS ensures bl[b] == SumSeq(order, (x: nat) => LenIs(lens, elems, b, x)) {
      var g := (x: nat) => LenIs(lens, elems, b, x);
      SumAppend(order[..h], order[h..], g);
      SumZero(order[..h], g);
      assert LenTotal(order[h..], lens, elems, b) == Dealt(bl, 0, 0, b);
    }
  }

  lemma {:induction false} BitsChange(order: seq<nat>, i: nat, lens: seq<nat>, v: nat, freq: seq<nat>, d: Desc)
    requires ValidDesc(d) && i < |order| && order[i] < d.elems && order[i] < |lens| && order[i] < |freq|
    requires forall j :: 0 <= j < |order| && j != i ==> order[j] != order[i]
    ensures SumSeq(order, (x: nat) => Bits(lens[order[i] := v], freq, d, x))
         == SumSeq(order, (x: nat) => Bits(lens, freq, d, x)) + (v - lens[order[i]]) * freq[order[i]]
  {
    hide SumSeq;
    var m := order[i];
    var g, g' := (x: nat) => Bits(lens, freq, d, x), (x: nat) => Bits(lens[m := v], freq, d, x);
    SumDrop(order, i, g);
    SumDrop(order, i, g');
    SumSame(Drop(order, i), g, g');
    var f, x := freq[m], Xbits(d, m);
    assert f * (v + x) == f * v + f * x;
    assert f * (lens[m] + x) == f * lens[m] + f * x;
  }

  /** From h on, the lengths of the leaves do not fall along the list, and none is below `bits`. */
  ghost predicate Rising(order: seq<nat>, lens: seq<nat>, elems: nat, h: nat, bits: nat) {
    forall i, j {:trigger order[i], order[j]} :: h <= i <= j < |order| && order[i] < elems && order[j] < elems ==>
      order[i] < |lens| && order[j] < |lens| && bits <= lens[order[i]] <= lens[order[j]]
  }

  lemma RisingOne(order: seq<nat>, lens: seq<nat>, elems: nat, h: nat, bits: nat)
    requires 0 < h <= |order| && Rising(order, lens, elems, h, bits) && order[h - 1] < |lens|
    requires forall i, j :: 0 <= i < j < |order| ==> order[i] != order[j]
    ensures Rising(order, lens[order[h - 1] := bits], elems, h - 1, bits)
  {
  }

  lemma RisingNone(order: seq<nat>, lens: seq<nat>, elems: nat, bits: nat)
    ensures Rising(order, lens, elems, |order|, bits)
  {
  }

  lemma RisingSkip(order: seq<nat>, lens: seq<nat>, elems: nat, h: nat, bits: nat)
    requires 0 < h <= |order| && Rising(order, lens, elems, h, bits) && order[h - 1] >= elems
    ensures Rising(order, lens, elems, h - 1, bits)
  {
  }

  lemma RisingLess(order: seq<nat>, lens: seq<nat>, elems: nat, h: nat, bits: nat)
    requires bits > 0 && Rising(order, lens, elems, h, bits)
    ensures Rising(order, lens, elems, h, bits - 1)
  {
  }

  lemma {:induction false} RisingAll(lens: seq<nat>, order: seq<nat>, elems: nat, bl: seq<nat>, max: nat, h: nat)
    requires Dealing(lens, order, elems, bl, max, h, 0, 0) && Rising(order, lens, elems, h, 0)
    ensures Rising(order, lens, elems, 0, 0)
  {
    hide LenTotal, LeafTotal;
    NoLeafLeft(order, h, elems);
  }

  /** The loop that recomputes the lengths, from the end of the list. */
  method Reassign(order: seq<nat>, bl: seq<nat>, lens0: seq<nat>, freq: seq<nat>, d: Desc, opt0: int, ghost leaves: int)
    returns (lens: seq<nat>, opt: int)
    requires ValidDesc(d) && Repairing(bl, d.maxLength, 0, leaves) && leaves == LeafTotal(order, d.elems)
    requires forall i :: 0 <= i < |order| ==> order[i] < |lens0|
    requires forall i, j :: 0 <= i < j < |order| ==> order[i] != order[j]
    requires |freq| >= d.elems && opt0 == SumSeq(order, (x: nat) => Bits(lens0, freq, d, x))
    ensures Counted(bl, order, lens, d.elems) && |lens| == |lens0|
    ensures forall i {:trigger order[i]} :: 0 <= i < |order| && order[i] < d.elems ==> 1 <= lens[order[i]] <= d.maxLength
    ensures opt == SumSeq(order, (x: nat) => Bits(lens, freq, d, x))
    ensures forall x :: 0 <= x < |lens| && (x >= d.elems || x !in order) ==> lens[x] == lens0[x]
    ensures Rising(order, lens, d.elems, 0, 0)
  {
    hide Dealing, SumSeq, Repairing, Counted, Rising;
    RepairSizes(bl, d.maxLength, 0, leaves);
    lens, opt := lens0, opt0;
    var h: nat, bits: nat := |order|, d.maxLength;
    DealStart(lens, order, d.elems, bl, d.maxLength, leaves);
    RisingNone(order, lens, d.elems, d.maxLength);
    while bits != 0
      invariant Rising(order, lens, d.elems, h, bits)
      invariant 0 <= bits <= d.maxLength && 0 <= h <= |order| && |lens| == |lens0|
      invariant Dealing(lens, order, d.elems, bl, d.maxLength, h, bits, bl[bits])
      invariant opt == SumSeq(order, (x: nat) => Bits(lens, freq, d, x))
      invariant forall x :: 0 <= x < |lens| && (x >= d.elems || x !in order) ==> lens[x] == lens0[x]
    {
      lens, opt, h := DealLength(order, bl, lens, freq, d, opt, h, bits);
      DealShorter(lens, order, d.elems, bl, d.maxLength, h, bits);
      RisingLess(order, lens, d.elems, h, bits);
      bits := bits - 1;
    }
    RisingAll(lens, order, d.elems, bl, d.maxLength, h);
    DealEnd(lens, order, d.elems, bl, d.maxLength, h);
  }

  /** Deal out one length. */
  method DealLength(order: seq<nat>, bl: seq<nat>, lens0: seq<nat>, freq: seq<nat>, d: Desc, opt0: int, h0: nat, bits: nat)
    returns (lens: seq<nat>, opt: int, h: nat)
    requires ValidDesc(d) && 0 < bits <= d.maxLength && |bl| == MAX_BITS + 1 && h0 <= |order|
    requires Dealing(lens0, order, d.elems, bl, d.maxLength, h0, bits, bl[bits]) && Rising(order, lens0, d.elems, h0, bits)
    requires forall i, j :: 0 <= i < j < |order| ==> order[i] != order[j]
    requires |freq| >= d.elems && opt0 == SumSeq(order, (x: nat) => Bits(lens0, freq, d, x))
    ensures h <= |order| && |lens| == |lens0|
    ensures Dealing(lens, order, d.elems, bl, d.maxLength, h, bits, 0) && Rising(order, lens, d.elems, h, bits)
    ensures opt == SumSeq(order, (x: nat) => Bits(lens, freq, d, x))
    ensures forall x :: 0 <= x < |lens| && (x >= d.elems || x !in order) ==> lens[x] == lens0[x]
  {
    hide Dealing, SumSeq, Bits, Pow2, Rising;
    lens, opt, h := lens0, opt0, h0;
    var n := bl[bits];
    while n != 0
      invariant h <= |order| && |lens| == |lens0|
      invariant Dealing(lens, order, d.elems, bl, d.maxLength, h, bits, n) && Rising(order, lens, d.elems, h, bits)
      invariant opt == SumSeq(order, (x: nat) => Bits(lens, freq, d, x))
      invariant forall x :: 0 <= x < |lens| && (x >= d.elems || x !in order) ==> lens[x] == lens0[x]
      decreases h
    {
      DealMore(lens, order, d.elems, bl, d.maxLength, h, bits, n);
      h := h - 1;
      var m := order[h];
      if m >= d.elems {
        DealSkip(lens, order, d.elems, bl, d.maxLength, h + 1, bits, n);
        RisingSkip(order, lens, d.elems, h + 1, bits);
        continue;
      }
      DealOne(lens, order, d.elems, bl, d.maxLength, h + 1, bits, n);
      RisingOne(order, lens, d.elems, h + 1, bits);
      if lens[m] != bits {
        BitsChange(order, h, lens, bits, freq, d);
        opt := opt + (bits - lens[m]) * freq[m];
        lens := lens[m := bits];
      } else {
        assert lens[m := bits] == lens;
      }
      n := n - 1;
    }
  }
}
