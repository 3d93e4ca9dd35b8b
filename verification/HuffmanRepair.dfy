/** The repair of over-long codes in gen_bitlen. */
module HuffmanRepair {
  import opened Arithmetic
  import opened HuffmanTree
  import opened HuffmanMerge
  import opened HuffmanSums
  import opened HuffmanLengths

  // ---------- the Kraft sum from the counts ----------

  /** The Kraft sum of the lengths up to b, in units of 2^-max. */
  function Kraft(bl: seq<nat>, max: nat, b: nat): nat
    requires b <= max < |bl|
  {
    bl[b] * Pow2(max - b) + (if b == 0 then 0 else Kraft(bl, max, b - 1))
  }

  function CountUpTo(bl: seq<nat>, b: nat): nat
    requires b < |bl|
  {
    bl[b] + (if b == 0 then 0 else CountUpTo(bl, b - 1))
  }

  lemma {:induction false} KraftChange(bl: seq<nat>, max: nat, b: nat, c: nat, v: nat)
    requires b <= max < |bl| && c < |bl|
    ensures Kraft(bl[c := v], max, b) == Kraft(bl, max, b) + (if c <= b then v * Pow2(max - c) - bl[c] * Pow2(max - c) else 0)
    ensures CountUpTo(bl[c := v], b) == CountUpTo(bl, b) + (if c <= b then v - bl[c] else 0)
    decreases b
  {
    hide Pow2;
    if b > 0 { KraftChange(bl, max, b - 1, c, v); }
  }

  /** The units of one leaf, if its length is at most b. */
  function UnitsTo(lens: seq<nat>, elems: nat, max: nat, b: nat, n: nat): int {
    if n < elems && n < |lens| && lens[n] <= b && lens[n] <= max then Pow2(max - lens[n]) else 0
  }

  function OneTo(lens: seq<nat>, elems: nat, b: nat, n: nat): int {
    if n < elems && n < |lens| && lens[n] <= b then 1 else 0
  }

  /** The counts of a list. */
  ghost function CountSeq(xs: seq<nat>, lens: seq<nat>, elems: nat): (bl: seq<nat>)
    ensures |bl| == MAX_BITS + 1 && Counted(bl, xs, lens, elems)
    decreases |xs|
  {
    if xs == [] then
      assert forall g: nat -> int :: SumSeq([], g) == 0;
      seq(MAX_BITS + 1, _ => 0)
    else
      var i := |xs| - 1;
      var bl := CountSeq(xs[..i], lens, elems);
      CountedSnoc(bl, xs, lens, elems);
      if xs[i] < elems && xs[i] < |lens| && lens[xs[i]] <= MAX_BITS then bl[lens[xs[i]] := bl[lens[xs[i]]] + 1] else bl
  }

  lemma {:induction false} CountedSnoc(bl: seq<nat>, xs: seq<nat>, lens: seq<nat>, elems: nat)
    requires xs != [] && Counted(bl, xs[..|xs| - 1], lens, elems)
    ensures var x := xs[|xs| - 1];
            Counted(if x < elems && x < |lens| && lens[x] <= MAX_BITS then bl[lens[x] := bl[lens[x]] + 1] else bl, xs, lens, elems)
  {
  }

  lemma CountedUnique(bl: seq<nat>, bl': seq<nat>, xs: seq<nat>, lens: seq<nat>, elems: nat)
    requires Counted(bl, xs, lens, elems) && Counted(bl', xs, lens, elems)
    ensures bl == bl'
  {
    hide SumSeq;
    forall b | 0 <= b <= MAX_BITS ensures bl[b] == bl'[b] {
    }
  }

  /** Adding up by length or leaf by leaf is the same. */
  lemma {:induction false} KraftByLeaf(xs: seq<nat>, lens: seq<nat>, elems: nat, max: nat, b: nat)
    requires b <= max <= MAX_BITS
    ensures var bl := CountSeq(xs, lens, elems);
            && Kraft(bl, max, b) == SumSeq(xs, (n: nat) => UnitsTo(lens, elems, max, b, n))
            && CountUpTo(bl, b) == SumSeq(xs, (n: nat) => OneTo(lens, elems, b, n))
    decreases |xs|
  {
    hide Counted, Pow2;
    if xs == [] {
      NoKraft(seq(MAX_BITS + 1, _ => 0), max, b);
    } else {
      var i := |xs| - 1;
      KraftByLeaf(xs[..i], lens, elems, max, b);
      var x := xs[i];
      if x < elems && x < |lens| && lens[x] <= MAX_BITS {
        var bl := CountSeq(xs[..i], lens, elems);
        KraftChange(bl, max, b, lens[x], bl[lens[x]] + 1);
        if lens[x] <= b { Distribute(bl[lens[x]], 1, Pow2(max - lens[x])); }
      }
    }
  }

  lemma {:induction false} NoKraft(bl: seq<nat>, max: nat, b: nat)
    requires b <= max < |bl| && forall i :: 0 <= i < |bl| ==> bl[i] == 0
    ensures Kraft(bl, max, b) == 0 && CountUpTo(bl, b) == 0
    decreases b
  {
    if b > 0 { NoKraft(bl, max, b - 1); }
  }

  // ---------- what the first pass leaves ----------

  function IsLeaf(elems: nat, n: nat): int {
    if n < elems then 1 else 0
  }

  lemma {:induction false} LeafSumSame(t: Forest, m: nat, f: nat -> int, g: nat -> int)
    requires forall n: nat :: n in t.leaves ==> f(n) == g(n)
    ensures LeafSum(t, m, f) == LeafSum(t, m, g)
    decreases m
  {
    if m > 0 { LeafSumSame(t, m - 1, f, g); }
  }

  lemma {:induction false} LeafSumMono(t: Forest, m: nat, f: nat -> int, g: nat -> int)
    requires forall n: nat :: n in t.leaves ==> f(n) <= g(n)
    ensures LeafSum(t, m, f) <= LeafSum(t, m, g)
    decreases m
  {
    if m > 0 { LeafSumMono(t, m - 1, f, g); }
  }

  lemma {:induction false} LeafSumAtMost(t: Forest, m: nat, f: nat -> int)
    requires forall n: nat :: f(n) <= 1
    ensures LeafSum(t, m, f) <= m
    decreases m
  {
    if m > 0 { LeafSumAtMost(t, m - 1, f); }
  }

  lemma {:induction false} SumZero(xs: seq<nat>, g: nat -> int)
    requires forall i :: 0 <= i < |xs| ==> g(xs[i]) == 0
    ensures SumSeq(xs, g) == 0
    decreases |xs|
  {
    if xs != [] { SumZero(xs[..|xs| - 1], g); }
  }

  lemma {:induction false} LeafListed(order: seq<nat>, t: Forest, n: nat)
    requires Listed(order, t) && n in t.leaves
    ensures n in order
  {
    hide Good, ParentsFirst;
    Sizes(t);
    assert n in TreeNodes(t) - {t.node - 1};
    assert n in multiset(order);
  }

  /** Every leaf has its depth, cut to the limit. */
  lemma {:induction false} LeafLens(lens: seq<nat>, order: seq<nat>, t: Forest, max: nat)
    requires Visited(lens, t, order, |order|, max) && max >= 1
    ensures Listed(order, t) && Sized(t) && t.elems < t.node <= |lens|
    ensures forall n: nat :: n in t.leaves ==> n < |lens| && n < t.elems && InTree(t, n) && lens[n] == Limited(t, n, max)
    ensures forall i :: 0 <= i < |order| ==> order[i] < |lens| && 1 <= lens[order[i]] <= max
  {
    hide ParentsFirst, Depth, KidGood, ParentGood;
    forall n: nat | n in t.leaves ensures n < |lens| && lens[n] == Limited(t, n, max) {
      LeafListed(order, t, n);
      var j :| 0 <= j < |order| && order[j] == n;
    }
    forall i | 0 <= i < |order| ensures order[i] < |lens| && 1 <= lens[order[i]] <= max {
      ListedNode(order, t, i);
    }
  }

  /** The number of codes that were cut is twice the excess of the Kraft sum. */
  lemma {:induction false} OverflowIsTwiceExcess(order: seq<nat>, t: Forest, max: nat)
    requires Listed(order, t)
    ensures SumSeq(order, (n: nat) => TooDeep(t, n, max)) == 2 * Deep(t, t.elems, max)
  {
    hide Good, SumSeq, LeafSum, InnerSum, Deep, ParentsFirst, Depth;
    Sizes(t);
    var g := (n: nat) => TooDeep(t, n, max);
    NodesSum(order, t, g);
    CutNodes(t, max, g);
  }

  lemma {:induction false} ListSum(order: seq<nat>, t: Forest, g: nat -> int)
    requires Listed(order, t) && forall n: nat :: n >= t.elems ==> g(n) == 0
    ensures SumSeq(order, g) == LeafSum(t, t.elems, g)
  {
    hide Good, SumSeq, LeafSum, ParentsFirst, IndexSum;
    LeavesOnly(order, t, g);
    TreeLeafSum(t, t.elems, g);
  }

  lemma {:induction false} PassKraft(lens: seq<nat>, bl: seq<nat>, order: seq<nat>, t: Forest, max: nat)
    requires Visited(lens, t, order, |order|, max) && 1 <= max <= MAX_BITS && Counted(bl, order, lens, t.elems)
    ensures |bl| == MAX_BITS + 1 && Kraft(bl, max, max) == Pow2(max) + Deep(t, t.elems, max)
  {
    hide Good, SumSeq, LeafSum, Deep, Depth, Pow2, Kraft, Visited, ParentsFirst, Counted;
    LeafLens(lens, order, t, max);
    CountedUnique(bl, CountSeq(order, lens, t.elems), order, lens, t.elems);
    KraftByLeaf(order, lens, t.elems, max, max);
    var g, u := (n: nat) => UnitsTo(lens, t.elems, max, max, n), (n: nat) => LimitedUnits(t, n, max);
    ListSum(order, t, g);
    LeafSumSame(t, t.elems, g, u);
    KraftExcess(t, max, u);
  }

  lemma {:induction false} PassUpper(lens: seq<nat>, bl: seq<nat>, order: seq<nat>, t: Forest, max: nat)
    requires Visited(lens, t, order, |order|, max) && 1 <= max <= MAX_BITS && Counted(bl, order, lens, t.elems)
    requires Deep(t, t.elems, max) > 0
    ensures |bl| == MAX_BITS + 1 && Kraft(bl, max, max - 1) < Pow2(max)
  {
    hide Good, SumSeq, LeafSum, Deep, Depth, Pow2, Kraft, Visited, ParentsFirst, Counted;
    LeafLens(lens, order, t, max);
    CountedUnique(bl, CountSeq(order, lens, t.elems), order, lens, t.elems);
    KraftByLeaf(order, lens, t.elems, max, max - 1);
    var g, u := (n: nat) => UnitsTo(lens, t.elems, max, max - 1, n), (n: nat) => AboveUnits(t, n, max);
    ListSum(order, t, g);
    LeafSumMono(t, t.elems, g, u);
    AboveNotFull(t, max, u);
  }

  lemma {:induction false} PassCounts(lens: seq<nat>, bl: seq<nat>, order: seq<nat>, t: Forest, max: nat)
    requires Visited(lens, t, order, |order|, max) && 1 <= max <= MAX_BITS && Counted(bl, order, lens, t.elems)
    ensures |bl| == MAX_BITS + 1 && bl[0] == 0
    ensures CountUpTo(bl, max) == SumSeq(order, (n: nat) => IsLeaf(t.elems, n)) <= t.elems
  {
    hide Good, SumSeq, LeafSum, Depth, CountUpTo, Limited, Visited, ParentsFirst;
    LeafLens(lens, order, t, max);
    CountedUnique(bl, CountSeq(order, lens, t.elems), order, lens, t.elems);
    KraftByLeaf(order, lens, t.elems, max, max);
    var g, u := (n: nat) => OneTo(lens, t.elems, max, n), (n: nat) => IsLeaf(t.elems, n);
    SumSame(order, g, u);
    ListSum(order, t, u);
    LeafSumAtMost(t, t.elems, u);
    SumZero(order, (n: nat) => LenIs(lens, t.elems, 0, n));
  }

  // ---------- moving leaves down ----------

  /** The counts while `excess` units have still to be saved. */
  ghost predicate Repairing(bl: seq<nat>, max: nat, excess: nat, leaves: int) {
    && |bl| == MAX_BITS + 1 && 1 <= max <= MAX_BITS && bl[0] == 0
    && Kraft(bl, max, max) == Pow2(max) + excess
    && (excess > 0 ==> Kraft(bl, max, max - 1) < Pow2(max))
    && CountUpTo(bl, max) == leaves <= Pow2(max)
    && (forall b :: max < b <= MAX_BITS ==> bl[b] == 0)
  }

  lemma {:induction false} AllZeroBelow(bl: seq<nat>, max: nat, b: nat)
    requires b <= max < |bl| && forall i :: 0 <= i <= b ==> bl[i] == 0
    ensures Kraft(bl, max, b) == 0 && CountUpTo(bl, b) == 0
    decreases b
  {
    if b > 0 { AllZeroBelow(bl, max, b - 1); }
  }

  /** A leaf that can be moved down exists, and there is one at the limit to become its brother. */
  lemma {:induction false} CanMove(bl: seq<nat>, max: nat, excess: nat, leaves: int)
    requires Repairing(bl, max, excess, leaves) && excess > 0
    ensures bl[max] >= 2 && exists b :: 1 <= b < max && bl[b] > 0
  {
    hide Pow2;
    assert Pow2(0) == 1 by { One(); }
    if forall b :: 1 <= b < max ==> bl[b] == 0 {
      AllZeroBelow(bl, max, max - 1);
    }
  }

  lemma One()
    ensures Pow2(0) == 1
  {
  }

  lemma Half(n: nat)
    requires n > 0
    ensures Pow2(n) == 2 * Pow2(n - 1)
  {
  }

  /** Moving one leaf from length b to b + 1, together with one leaf from the limit, saves exactly one unit. */
  lemma {:induction false} MoveDown(bl: seq<nat>, max: nat, excess: nat, leaves: int, b: nat)
    requires Repairing(bl, max, excess, leaves) && excess > 0 && 1 <= b < max && bl[b] > 0 && bl[max] >= 2
    ensures var bl1 := bl[b := bl[b] - 1]; var bl2 := bl1[b + 1 := bl1[b + 1] + 2];
            && bl2[max] >= 1 && Repairing(bl2[max := bl2[max] - 1], max, excess - 1, leaves)
            && Kraft(bl2[max := bl2[max] - 1], max, max - 1) < Pow2(max)
  {
    hide Pow2, Kraft, CountUpTo;
    var bl1 := bl[b := bl[b] - 1];
    var bl2 := bl1[b + 1 := bl1[b + 1] + 2];
    var u := Pow2(max - b - 1);
    Half(max - b);
    One();
    KraftChange(bl, max, max, b, bl[b] - 1);
    KraftChange(bl, max, max - 1, b, bl[b] - 1);
    KraftChange(bl1, max, max, b + 1, bl1[b + 1] + 2);
    KraftChange(bl1, max, max - 1, b + 1, bl1[b + 1] + 2);
    KraftChange(bl2, max, max, max, bl2[max] - 1);
    KraftChange(bl2, max, max - 1, max, bl2[max] - 1);
    Distribute(bl[b] - 1, 1, Pow2(max - b));
    Distribute(bl1[b + 1], 2, u);
  }

  /** Where leaves have been moved down from so far: `top` is the first such length (max, if there is none yet), and
      below it no length but the last that is in use has more than one leaf left. */
  ghost predicate FromBelow(bl: seq<nat>, bl0: seq<nat>, max: nat, top: nat) {
    && 1 <= top <= max < |bl| == |bl0| && (top < max ==> bl[top] < bl0[top])
    && (forall b :: 0 <= b < top ==> bl[b] == bl0[b])
    && (forall b :: top < b < max ==> bl[b] <= 2)
    && (forall b, c :: top < b < c < max && bl[b] == 2 ==> bl[c] == 0)
  }

  /** Taking a leaf from the longest length in use below the limit keeps that. */
  lemma {:induction false} FromBelowStep(bl: seq<nat>, bl0: seq<nat>, max: nat, top: nat, b: nat)
    requires FromBelow(bl, bl0, max, top) && 1 <= b < max && bl[b] > 0 && bl[max] >= 2 && forall c :: b < c < max ==> bl[c] == 0
    ensures var bl1 := bl[b := bl[b] - 1]; var bl2 := bl1[b + 1 := bl1[b + 1] + 2];
            bl2[max] >= 1 && FromBelow(bl2[max := bl2[max] - 1], bl0, max, if b < top then b else top)
  {
  }

  /** The first repair loop of gen_bitlen: at the end the Kraft sum is exactly one, and leaves have only been moved
      down from a length when no longer length below the limit had one. */
  method Repair(bl0: seq<nat>, max: nat, overflow0: nat, ghost excess0: nat, ghost leaves: int) returns (bl: seq<nat>, ghost top: nat)
    requires Repairing(bl0, max, excess0, leaves) && overflow0 == 2 * excess0 > 0
    ensures Repairing(bl, max, 0, leaves) && |bl| == |bl0| == MAX_BITS + 1 && bl[max] > 0
    ensures 1 <= top < max <= MAX_BITS && bl[top] < bl0[top] && (forall b :: 0 <= b < top ==> bl[b] == bl0[b])
    ensures forall b :: top < b < max ==> bl[b] <= 2
    ensures forall b, c :: top < b < c < max && bl[b] == 2 ==> bl[c] == 0
  {
    hide Repairing, Kraft, Pow2, FromBelow;
    RepairSizes(bl0, max, excess0, leaves);
    bl, top := bl0, max;
    NoneMoved(bl0, max);
    var overflow := overflow0;
    ghost var excess: nat := excess0;
    while overflow > 0
      invariant 0 <= excess && Repairing(bl, max, excess, leaves) && overflow == 2 * excess && |bl| == |bl0|
      invariant excess < excess0 ==> Kraft(bl, max, max - 1) < Pow2(max) && top < max
      invariant FromBelow(bl, bl0, max, top)
    {
      RepairSizes(bl, max, excess, leaves);
      CanMove(bl, max, excess, leaves);
      var bits := max - 1;
      while bl[bits] == 0
        invariant 0 <= bits < max && exists b :: 1 <= b <= bits && bl[b] > 0
        invariant forall c :: bits < c < max ==> bl[c] == 0
        decreases bits
      {
        bits := bits - 1;
      }
      MoveDown(bl, max, excess, leaves, bits);
      FromBelowStep(bl, bl0, max, top, bits);
      top := if bits < top then bits else top;
      bl := bl[bits := bl[bits] - 1];
      bl := bl[bits + 1 := bl[bits + 1] + 2];
      bl := bl[max := bl[max] - 1];
      overflow, excess := overflow - 2, excess - 1;
    }
    SomeAtMax(bl, max, leaves);
    MovedFrom(bl, bl0, max, top);
  }

  lemma NoneMoved(bl: seq<nat>, max: nat)
    requires 1 <= max < |bl|
    ensures FromBelow(bl, bl, max, max)
  {
  }

  lemma MovedFrom(bl: seq<nat>, bl0: seq<nat>, max: nat, top: nat)
    requires FromBelow(bl, bl0, max, top) && top < max
    ensures 1 <= top < max < |bl| == |bl0| && bl[top] < bl0[top] && (forall b :: 0 <= b < top ==> bl[b] == bl0[b])
    ensures forall b :: top < b < max ==> bl[b] <= 2
    ensures forall b, c :: top < b < c < max && bl[b] == 2 ==> bl[c] == 0
  {
  }

  /** The codes above the limit do not fill the space, so some code has the greatest length. */
  lemma SomeAtMax(bl: seq<nat>, max: nat, leaves: int)
    requires Repairing(bl, max, 0, leaves) && Kraft(bl, max, max - 1) < Pow2(max)
    ensures bl[max] > 0
  {
    assert Kraft(bl, max, max) == bl[max] * Pow2(0) + Kraft(bl, max, max - 1);
  }

  lemma RepairSizes(bl: seq<nat>, max: nat, excess: nat, leaves: int)
    requires Repairing(bl, max, excess, leaves)
    ensures |bl| == MAX_BITS + 1 && 1 <= max <= MAX_BITS && bl[0] == 0
  {
  }
}
