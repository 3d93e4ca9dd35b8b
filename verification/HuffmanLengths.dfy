/** gen_bitlen: the code lengths of a finished tree, and their repair when they exceed the limit. */
module HuffmanLengths {
  import opened Arithmetic
  import opened HuffmanTree
  import opened HuffmanMerge
  import opened HuffmanSums

  const MAX_BITS := 15

  /** What the tree builder knows about an alphabet: extra bits from symbol `base` on, the number of symbols,
      the length limit and, if there is one, the lengths of the static code. */
  datatype Desc = Desc(extra: seq<nat>, base: nat, elems: nat, maxLength: nat, hasStatic: bool, staticLen: seq<nat>)

  predicate ValidDesc(d: Desc) {
    && 3 <= d.elems && 1 <= d.maxLength <= MAX_BITS && d.elems <= Pow2(d.maxLength)
    && d.base + |d.extra| >= d.elems && (d.hasStatic ==> |d.staticLen| >= d.elems)
  }

  function Xbits(d: Desc, n: nat): nat
    requires ValidDesc(d) && n < d.elems
  {
    if n >= d.base then d.extra[n - d.base] else 0
  }

  // ---------- quantities of one node, given the lengths ----------

  function LenIs(lens: seq<nat>, elems: nat, b: nat, n: nat): int {
    if n < elems && n < |lens| && lens[n] == b then 1 else 0
  }

  function Bits(lens: seq<nat>, freq: seq<nat>, d: Desc, n: nat): int
    requires ValidDesc(d)
  {
    if n < d.elems && n < |lens| && n < |freq| then freq[n] * (lens[n] + Xbits(d, n)) else 0
  }

  function StaticBits(freq: seq<nat>, d: Desc, n: nat): int
    requires ValidDesc(d)
  {
    if d.hasStatic && n < d.elems && n < |freq| then freq[n] * (d.staticLen[n] + Xbits(d, n)) else 0
  }

  /** bl[b] is the number of leaves in xs with length b. */
  ghost predicate Counted(bl: seq<nat>, xs: seq<nat>, lens: seq<nat>, elems: nat) {
    |bl| == MAX_BITS + 1 && forall b {:trigger bl[b]} :: 0 <= b <= MAX_BITS ==> bl[b] == SumSeq(xs, (n: nat) => LenIs(lens, elems, b, n))
  }

  lemma {:induction false} SumSnoc(xs: seq<nat>, i: nat, g: nat -> int)
    requires i < |xs|
    ensures SumSeq(xs[..i + 1], g) == SumSeq(xs[..i], g) + g(xs[i])
  {
    assert xs[..i + 1][..i] == xs[..i];
  }

  /** The list that gen_bitlen walks: all nodes but the root, each once, parents first. */
  ghost predicate Listed(order: seq<nat>, t: Forest) {
    Whole(t) && multiset(order) == multiset(TreeNodes(t) - {t.node - 1}) && ParentsFirst(order, t.dad)
  }

  lemma {:induction false} ListedNode(order: seq<nat>, t: Forest, i: nat)
    requires Listed(order, t) && i < |order|
    ensures InTree(t, order[i]) && order[i] < t.node - 1 && order[i] < t.dad[order[i]] < t.node
    ensures InTree(t, t.dad[order[i]]) && (t.dad[order[i]] == t.node - 1 || t.dad[order[i]] in order[..i])
    ensures Depth(t, order[i]) == Depth(t, t.dad[order[i]]) + 1
  {
    hide Good;
    var n := order[i];
    Sizes(t);
    assert n in multiset(order);
    assert n in TreeNodes(t) && n != t.node - 1;
    ParentOf(t, n);
    var p := t.dad[n];
    if p != t.node - 1 {
      assert p in TreeNodes(t) - {t.node - 1};
      assert p in multiset(order);
      var j :| 0 <= j < |order| && order[j] == p;
      assert j < i;
      assert order[..i][j] == p;
    }
  }

  lemma {:induction false} ListedDistinct(order: seq<nat>, t: Forest, i: nat, j: nat)
    requires Listed(order, t) && i < j < |order|
    ensures order[i] != order[j]
  {
    hide Good;
    assert multiset(TreeNodes(t) - {t.node - 1})[order[i]] <= 1;
    if order[i] == order[j] { TwiceIn(order, i, j); }
  }

  lemma TwiceIn(order: seq<nat>, i: nat, j: nat)
    requires i < j < |order| && order[i] == order[j]
    ensures multiset(order)[order[i]] >= 2
  {
    assert order == order[..j] + [order[j]] + order[j + 1..];
    assert order[..j][i] == order[i];
    assert order[i] in multiset(order[..j]);
  }

  // ---------- the first pass ----------

  /** The nodes that have been visited have their length, the others still their parent. */
  ghost predicate Visited(dl: seq<nat>, t: Forest, order: seq<nat>, i: nat, max: nat) {
    && Listed(order, t) && i <= |order| && |dl| == |t.dad|
    && dl[t.node - 1] == 0
    && (forall j {:trigger order[j]} :: 0 <= j < i ==> order[j] < |dl| && dl[order[j]] == Limited(t, order[j], max))
    && (forall j {:trigger order[j]} :: i <= j < |order| ==> order[j] < |dl| && dl[order[j]] == t.dad[order[j]])
  }

  lemma {:induction false} VisitStart(dl: seq<nat>, t: Forest, order: seq<nat>, max: nat)
    requires Listed(order, t) && dl == t.dad && t.node <= |dl|
    ensures Visited(dl[t.node - 1 := 0], t, order, 0, max)
  {
    hide Good, ParentsFirst, Limited;
    forall j | 0 <= j < |order| ensures order[j] < t.node - 1 { ListedNode(order, t, j); }
  }

  /** The next node: its length is one more than its parent's, cut to the limit. */
  lemma {:induction false} VisitNext(dl: seq<nat>, t: Forest, order: seq<nat>, i: nat, max: nat)
    requires Visited(dl, t, order, i, max) && i < |order|
    ensures order[i] < |dl| && dl[order[i]] < |dl| && InTree(t, order[i])
    ensures var bits := dl[dl[order[i]]] + 1; var len := if bits > max then max else bits;
            && Limited(t, order[i], max) == len && TooDeep(t, order[i], max) == (if bits > max then 1 else 0)
            && Visited(dl[order[i] := len], t, order, i + 1, max)
  {
    hide Good, ParentsFirst, Depth;
    Sizes(t);
    var n := order[i];
    ListedNode(order, t, i);
    var p := t.dad[n];
    assert dl[p] == Limited(t, p, max) by {
      if p == t.node - 1 { RootDepth(t); } else {
        var j :| 0 <= j < i && order[..i][j] == p;
        assert order[j] == p;
      }
    }
    forall j | 0 <= j < |order| && j != i ensures order[j] != n {
      if j < i { ListedDistinct(order, t, j, i); } else { ListedDistinct(order, t, i, j); }
    }
  }

  lemma RootDepth(t: Forest)
    requires Whole(t)
    ensures InTree(t, t.node - 1) && Depth(t, t.node - 1) == 0
  {
  }

  lemma {:induction false} CountedNext(bl: seq<nat>, xs: seq<nat>, i: nat, lens: seq<nat>, lens': seq<nat>, elems: nat)
    requires i < |xs| && Counted(bl, xs[..i], lens, elems) && xs[i] < |lens| == |lens'| && lens' == lens[xs[i] := lens'[xs[i]]]
    requires lens'[xs[i]] <= MAX_BITS && forall j :: 0 <= j < i ==> xs[j] != xs[i]
    ensures Counted(if xs[i] < elems then bl[lens'[xs[i]] := bl[lens'[xs[i]]] + 1] else bl, xs[..i + 1], lens', elems)
  {
    hide SumSeq;
    var bl' := if xs[i] < elems then bl[lens'[xs[i]] := bl[lens'[xs[i]]] + 1] else bl;
    forall b | 0 <= b <= MAX_BITS ensures bl'[b] == SumSeq(xs[..i + 1], (n: nat) => LenIs(lens', elems, b, n)) {
      var g, g' := (n: nat) => LenIs(lens, elems, b, n), (n: nat) => LenIs(lens', elems, b, n);
      SumSame(xs[..i], g, g');
      SumSnoc(xs, i, g');
      assert bl[b] == SumSeq(xs[..i], g);
    }
  }

  lemma {:induction false} BitsNext(xs: seq<nat>, i: nat, lens: seq<nat>, lens': seq<nat>, freq: seq<nat>, d: Desc)
    requires ValidDesc(d) && i < |xs| && xs[i] < |lens| == |lens'| && lens' == lens[xs[i] := lens'[xs[i]]]
    requires forall j :: 0 <= j < i ==> xs[j] != xs[i]
    ensures SumSeq(xs[..i + 1], (n: nat) => Bits(lens', freq, d, n))
         == SumSeq(xs[..i], (n: nat) => Bits(lens, freq, d, n)) + Bits(lens', freq, d, xs[i])
  {
    hide SumSeq;
    var g, g' := (n: nat) => Bits(lens, freq, d, n), (n: nat) => Bits(lens', freq, d, n);
    SumSame(xs[..i], g, g');
    SumSnoc(xs, i, g');
  }

  /** The pass over the list that computes the lengths, counts them and adds up the bits. */
  method FirstPass(order: seq<nat>, root: nat, dl: seq<nat>, freq: seq<nat>, d: Desc, ghost t: Forest)
    returns (lens: seq<nat>, bl: seq<nat>, overflow: nat, opt: int, stat: int)
    requires ValidDesc(d) && Listed(order, t) && dl == t.dad && freq == t.w && root == t.node - 1 && t.elems == d.elems
    ensures |lens| == |dl| && Visited(lens, t, order, |order|, d.maxLength) && Counted(bl, order, lens, d.elems)
    ensures overflow == SumSeq(order, (n: nat) => TooDeep(t, n, d.maxLength))
    ensures opt == SumSeq(order, (n: nat) => Bits(lens, freq, d, n))
    ensures stat == SumSeq(order, (n: nat) => StaticBits(freq, d, n))
    ensures forall n :: 0 <= n < |dl| && n !in order && n != root ==> lens[n] == dl[n]
  {
    hide SumSeq, Listed, Good;
    ListedSizes(order, t);
    lens := dl[root := 0];
    VisitStart(dl, t, order, d.maxLength);
    bl := seq(MAX_BITS + 1, _ => 0);
    overflow, opt, stat := 0, 0, 0;
    EmptyCounts(bl, order, lens, d.elems);
    assert order[..0] == [];
    EmptySum((n: nat) => TooDeep(t, n, d.maxLength));
    EmptySum((n: nat) => Bits(lens, freq, d, n));
    EmptySum((n: nat) => StaticBits(freq, d, n));
    for i := 0 to |order|
      invariant Visited(lens, t, order, i, d.maxLength) && Counted(bl, order[..i], lens, d.elems)
      invariant overflow == SumSeq(order[..i], (n: nat) => TooDeep(t, n, d.maxLength))
      invariant opt == SumSeq(order[..i], (n: nat) => Bits(lens, freq, d, n))
      invariant stat == SumSeq(order[..i], (n: nat) => StaticBits(freq, d, n))
      invariant |lens| == |dl| && forall n :: 0 <= n < |dl| && n !in order && n != root ==> lens[n] == dl[n]
    {
      VisitNext(lens, t, order, i, d.maxLength);
      ghost var before := lens;
      forall j | 0 <= j < i ensures order[j] != order[i] { ListedDistinct(order, t, j, i); }
      var n := order[i];
      var bits := lens[lens[n]] + 1;
      if bits > d.maxLength {
        bits := d.maxLength;
        overflow := overflow + 1;
      }
      lens := lens[n := bits];
      CountedNext(bl, order, i, before, lens, d.elems);
      BitsNext(order, i, before, lens, freq, d);
      SumSnoc(order, i, (n: nat) => TooDeep(t, n, d.maxLength));
      SumSnoc(order, i, (n: nat) => StaticBits(freq, d, n));
      if n < d.elems {
        bl := bl[bits := bl[bits] + 1];
        opt := opt + freq[n] * (bits + Xbits(d, n));
        if d.hasStatic { stat := stat + freq[n] * (d.staticLen[n] + Xbits(d, n)); }
      }
    }
    assert order[..|order|] == order;
  }

  lemma ListedSizes(order: seq<nat>, t: Forest)
    requires Listed(order, t)
    ensures Whole(t) && t.elems < t.node <= |t.dad| == |t.w|
  {
  }

  lemma EmptySum(g: nat -> int)
    ensures SumSeq([], g) == 0
  {
  }

  lemma EmptyCounts(bl: seq<nat>, order: seq<nat>, lens: seq<nat>, elems: nat)
    requires |bl| == MAX_BITS + 1 && forall b :: 0 <= b <= MAX_BITS ==> bl[b] == 0
    ensures Counted(bl, order[..0], lens, elems)
  {
    assert order[..0] == [];
  }
}
