/** gen_bitlen as a whole, with its result stated symbol by symbol. */
module HuffmanGen {
  import opened Arithmetic
  import opened HuffmanTree
  import opened HuffmanMerge
  import opened HuffmanGreedy
  import opened HuffmanSums
  import opened HuffmanLengths
  import opened HuffmanRepair
  import opened HuffmanAssign

  /** The number of symbols below m with length b. */
  function Same(lens: seq<nat>, m: nat, b: nat): nat
    requires m <= |lens|
  {
    if m == 0 then 0 else Same(lens, m - 1, b) + (if lens[m - 1] == b then 1 else 0)
  }

  lemma {:induction false} SamePrefix(lens: seq<nat>, k: nat, n: nat, b: nat)
    requires n <= k <= |lens|
    ensures Same(lens[..k], n, b) == Same(lens, n, b)
    decreases n
  {
    if n > 0 { SamePrefix(lens, k, n - 1, b); }
  }

  /** bl counts the symbols below m by their length; symbols without a code are not counted. */
  ghost predicate Tallies(bl: seq<nat>, lens: seq<nat>, m: nat) {
    && |bl| == MAX_BITS + 1 && bl[0] == 0 && m <= |lens|
    && forall b {:trigger bl[b]} :: 1 <= b <= MAX_BITS ==> bl[b] == Same(lens, m, b)
  }

  /** The bits that all occurrences of the symbols below m take. */
  function BitTotal(lens: seq<nat>, freq: seq<nat>, d: Desc, m: nat): nat
    requires ValidDesc(d) && m <= d.elems && m <= |lens| && m <= |freq|
  {
    if m == 0 then 0 else BitTotal(lens, freq, d, m - 1) + freq[m - 1] * (lens[m - 1] + Xbits(d, m - 1))
  }

  /** The same with the static code, if there is one. */
  function StaticTotal(freq: seq<nat>, d: Desc, m: nat): nat
    requires ValidDesc(d) && m <= d.elems && m <= |freq|
  {
    if d.hasStatic then BitTotal(d.staticLen, freq, d, m) else 0
  }

  lemma {:induction false} IndexBits(leaves: set<nat>, m: nat, lens: seq<nat>, freq: seq<nat>, d: Desc)
    requires ValidDesc(d) && m <= d.elems && m <= |lens| && m <= |freq| && forall n: nat :: n < m && n !in leaves ==> freq[n] == 0
    ensures IndexSum(leaves, m, (n: nat) => Bits(lens, freq, d, n)) == BitTotal(lens, freq, d, m)
    decreases m
  {
    hide Pow2;
    if m > 0 {
      IndexBits(leaves, m - 1, lens, freq, d);
      if m - 1 !in leaves { assert freq[m - 1] * (lens[m - 1] + Xbits(d, m - 1)) == 0; }
    }
  }

  lemma {:induction false} IndexStatic(leaves: set<nat>, m: nat, freq: seq<nat>, d: Desc)
    requires ValidDesc(d) && m <= d.elems && m <= |freq| && forall n: nat :: n < m && n !in leaves ==> freq[n] == 0
    ensures IndexSum(leaves, m, (n: nat) => StaticBits(freq, d, n)) == StaticTotal(freq, d, m)
    decreases m
  {
    hide Pow2;
    if m > 0 {
      IndexStatic(leaves, m - 1, freq, d);
      if m - 1 !in leaves && d.hasStatic { assert freq[m - 1] * (d.staticLen[m - 1] + Xbits(d, m - 1)) == 0; }
    }
  }

  lemma {:induction false} IndexSame(leaves: set<nat>, m: nat, lens: seq<nat>, elems: nat, b: nat)
    requires m <= elems && m <= |lens| && b >= 1 && forall n: nat :: n < m && n !in leaves ==> lens[n] == 0
    ensures IndexSum(leaves, m, (n: nat) => LenIs(lens, elems, b, n)) == Same(lens, m, b)
    decreases m
  {
    if m > 0 { IndexSame(leaves, m - 1, lens, elems, b); }
  }

  lemma {:induction false} SumBits(order: seq<nat>, t: Forest, lens: seq<nat>, freq: seq<nat>, d: Desc)
    requires ValidDesc(d) && Listed(order, t) && t.elems == d.elems && d.elems <= |lens| && d.elems <= |freq|
    requires forall n: nat :: n < d.elems && n !in t.leaves ==> freq[n] == 0
    ensures SumSeq(order, (n: nat) => Bits(lens, freq, d, n)) == BitTotal(lens, freq, d, d.elems)
    ensures SumSeq(order, (n: nat) => StaticBits(freq, d, n)) == StaticTotal(freq, d, d.elems)
  {
    hide Whole, ParentsFirst, SumSeq, BitTotal, IndexSum;
    LeavesOnly(order, t, (n: nat) => Bits(lens, freq, d, n));
    LeavesOnly(order, t, (n: nat) => StaticBits(freq, d, n));
    IndexBits(t.leaves, d.elems, lens, freq, d);
    IndexStatic(t.leaves, d.elems, freq, d);
  }

  lemma {:induction false} SumTallies(order: seq<nat>, t: Forest, lens: seq<nat>, bl: seq<nat>)
    requires Listed(order, t) && t.elems <= |lens| && Counted(bl, order, lens, t.elems) && bl[0] == 0
    requires forall n: nat :: n < t.elems && n !in t.leaves ==> lens[n] == 0
    ensures Tallies(bl, lens, t.elems)
  {
    hide Whole, ParentsFirst, SumSeq, IndexSum;
    forall b | 1 <= b <= MAX_BITS ensures bl[b] == Same(lens, t.elems, b) {
      LeavesOnly(order, t, (n: nat) => LenIs(lens, t.elems, b, n));
      IndexSame(t.leaves, t.elems, lens, t.elems, b);
    }
  }

  /** After the first pass: a complete code, or `Deep` units too much. */
  lemma {:induction false} PassState(lens: seq<nat>, bl: seq<nat>, order: seq<nat>, t: Forest, d: Desc)
    requires Visited(lens, t, order, |order|, d.maxLength) && ValidDesc(d) && Counted(bl, order, lens, t.elems) && t.elems == d.elems
    ensures Whole(t) && t.elems <= t.node && Repairing(bl, d.maxLength, Deep(t, t.elems, d.maxLength), LeafTotal(order, d.elems))
    ensures SumSeq(order, (n: nat) => TooDeep(t, n, d.maxLength)) == 2 * Deep(t, t.elems, d.maxLength)
  {
    hide Pow2, Kraft, CountUpTo, SumSeq, Deep, Whole, Visited, Listed, TooDeep;
    LeafLens(lens, order, t, d.maxLength);
    ListedSizes(order, t);
    OverflowIsTwiceExcess(order, t, d.maxLength);
    PassKraft(lens, bl, order, t, d.maxLength);
    PassCounts(lens, bl, order, t, d.maxLength);
    if Deep(t, t.elems, d.maxLength) > 0 { PassUpper(lens, bl, order, t, d.maxLength); }
    forall b | d.maxLength < b <= MAX_BITS ensures bl[b] == 0 {
      SumZero(order, (n: nat) => LenIs(lens, t.elems, b, n));
    }
  }

  /** The leaves have lengths from 1 to max, and nothing else has one. */
  ghost predicate InRange(lens: seq<nat>, leaves: set<nat>, elems: nat, max: nat) {
    && elems <= |lens|
    && (forall n: nat :: n < elems && n in leaves ==> 1 <= lens[n] <= max)
    && (forall n: nat :: n < elems && n !in leaves ==> lens[n] == 0)
  }

  lemma {:induction false} NotLeafNotListed(order: seq<nat>, t: Forest, n: nat)
    requires Listed(order, t) && n < t.elems && n !in t.leaves
    ensures n !in order && n != t.node - 1
  {
    hide Good, ParentsFirst;
    if n in order { ListedNodes(order, t, n); }
  }

  lemma ListedNodes(order: seq<nat>, t: Forest, n: nat)
    requires Listed(order, t) && n in order
    ensures n in t.leaves || t.elems <= n
  {
    hide Good, ParentsFirst;
    assert n in multiset(order);
    assert n in TreeNodes(t);
  }

  lemma {:induction false} RangeFromList(order: seq<nat>, t: Forest, lens: seq<nat>, dl: seq<nat>, max: nat)
    requires Listed(order, t) && t.elems <= |lens| == |dl|
    requires forall i {:trigger order[i]} :: 0 <= i < |order| && order[i] < t.elems ==> order[i] < |lens| && 1 <= lens[order[i]] <= max
    requires forall n :: 0 <= n < t.elems && n !in order && n != t.node - 1 ==> lens[n] == dl[n]
    requires forall n: nat :: n < t.elems && n !in t.leaves ==> dl[n] == 0
    ensures InRange(lens, t.leaves, t.elems, max)
  {
    hide Whole, ParentsFirst;
    forall n: nat | n < t.elems && n in t.leaves ensures 1 <= lens[n] <= max {
      LeafListed(order, t, n);
      var i :| 0 <= i < |order| && order[i] == n;
    }
    forall n: nat | n < t.elems && n !in t.leaves ensures lens[n] == 0 { NotLeafNotListed(order, t, n); }
  }

  /** What gen_bitlen promises about the lengths and their counts. */
  ghost predicate Lengths(lens: seq<nat>, bl: seq<nat>, leaves: set<nat>, d: Desc) {
    && InRange(lens, leaves, d.elems, d.maxLength) && Tallies(bl, lens, d.elems)
    && d.maxLength <= MAX_BITS && Kraft(bl, d.maxLength, d.maxLength) == Pow2(d.maxLength)
  }

  lemma {:induction false} LengthsOf(order: seq<nat>, t: Forest, lens: seq<nat>, bl: seq<nat>, dl: seq<nat>, d: Desc)
    requires Listed(order, t) && t.elems == d.elems <= |lens| == |dl| && Counted(bl, order, lens, d.elems)
    requires Repairing(bl, d.maxLength, 0, LeafTotal(order, d.elems))
    requires forall i {:trigger order[i]} :: 0 <= i < |order| && order[i] < t.elems ==> order[i] < |lens| && 1 <= lens[order[i]] <= d.maxLength
    requires forall n :: 0 <= n < t.elems && n !in order && n != t.node - 1 ==> lens[n] == dl[n]
    requires forall n: nat :: n < t.elems && n !in t.leaves ==> dl[n] == 0
    ensures Lengths(lens, bl, t.leaves, d)
  {
    hide Listed, SumSeq, Repairing, Counted, Pow2, Tallies, InRange, Kraft;
    RepairSizes(bl, d.maxLength, 0, LeafTotal(order, d.elems));
    RepairedKraft(bl, d.maxLength, LeafTotal(order, d.elems));
    RangeFromList(order, t, lens, dl, d.maxLength);
    RangeZero(lens, t.leaves, d.elems, d.maxLength);
    SumTallies(order, t, lens, bl);
  }

  /** The part of gen_bitlen that runs when some code is too long. */
  method Shorten(order: seq<nat>, bl0: seq<nat>, lens0: seq<nat>, freq: seq<nat>, d: Desc, overflow: nat, opt0: int, ghost dl: seq<nat>, ghost t: Forest)
    returns (lens: seq<nat>, bl: seq<nat>, opt: int)
    requires ValidDesc(d) && Listed(order, t) && t.elems == d.elems <= |lens0| == |dl| && |freq| >= d.elems
    requires overflow % 2 == 0 && overflow > 0 && Repairing(bl0, d.maxLength, overflow / 2, LeafTotal(order, d.elems))
    requires forall i :: 0 <= i < |order| ==> order[i] < |lens0|
    requires forall n: nat :: n < t.elems && n !in t.leaves ==> dl[n] == 0
    requires forall n :: 0 <= n < t.elems && n !in order && n != t.node - 1 ==> lens0[n] == dl[n]
    requires opt0 == SumSeq(order, (n: nat) => Bits(lens0, freq, d, n))
    ensures |lens| == |lens0| && Lengths(lens, bl, t.leaves, d)
    ensures opt == SumSeq(order, (n: nat) => Bits(lens, freq, d, n))
    ensures |bl| == MAX_BITS + 1 && bl[d.maxLength] > 0
    ensures Rising(order, lens, d.elems, 0, 0)
  {
    hide Rising, Listed, SumSeq, Repairing, Counted, Pow2, Bits, Xbits, Lengths, LeafTotal;
    RepairSizes(bl0, d.maxLength, overflow / 2, LeafTotal(order, d.elems));
    ghost var top;
    bl, top := Repair(bl0, d.maxLength, overflow, overflow / 2, LeafTotal(order, d.elems));
    forall i, j | 0 <= i < j < |order| ensures order[i] != order[j] { ListedDistinct(order, t, i, j); }
    lens, opt := Reassign(order, bl, lens0, freq, d, opt0, LeafTotal(order, d.elems));
    LengthsOf(order, t, lens, bl, dl, d);
  }

  /** Of the symbols below m that have a code, a rarer one never has a shorter code. */
  ghost predicate RareIsLong(lens: seq<nat>, freq: seq<nat>, m: nat) {
    && m <= |lens| && m <= |freq|
    && forall i, j :: 0 <= i < m && 0 <= j < m && lens[i] != 0 && lens[j] != 0 && freq[i] < freq[j] ==> lens[i] >= lens[j]
  }

  /** The list falls in weight and rises in length. */
  lemma {:induction false} RareFromList(order: seq<nat>, t: Forest, lens: seq<nat>, bl: seq<nat>, freq: seq<nat>, d: Desc)
    requires Listed(order, t) && t.elems == d.elems && Falling(order, freq) && Rising(order, lens, d.elems, 0, 0)
    requires Lengths(lens, bl, t.leaves, d) && d.elems <= |freq|
    ensures RareIsLong(lens, freq, d.elems)
  {
    hide Listed, Kraft, Pow2, Tallies;
    forall i, j | 0 <= i < d.elems && 0 <= j < d.elems && lens[i] != 0 && lens[j] != 0 && freq[i] < freq[j] ensures lens[i] >= lens[j] {
      var x: nat, y: nat := i, j;
      assert x in t.leaves && y in t.leaves;
      LeafListed(order, t, x);
      LeafListed(order, t, y);
      var a :| 0 <= a < |order| && order[a] == x;
      var b :| 0 <= b < |order| && order[b] == y;
      assert a <= b ==> freq[order[b]] <= freq[order[a]];
    }
  }

  /** gen_bitlen: lengths within the limit, a Kraft sum of exactly one, and exact bit totals; codes that were cut are
      longer for rarer symbols. */
  method GenBitlen(order: seq<nat>, root: nat, dl: seq<nat>, freq: seq<nat>, d: Desc, opt0: int, stat0: int, ghost t: Forest)
    returns (lens: seq<nat>, bl: seq<nat>, opt: int, stat: int)
    requires ValidDesc(d) && Listed(order, t) && dl == t.dad && freq == t.w && root == t.node - 1 && t.elems == d.elems
    requires t.elems <= |dl| == |freq| && forall n: nat :: n < t.elems && n !in t.leaves ==> dl[n] == 0 && freq[n] == 0
    requires Falling(order, freq)
    ensures |lens| == |dl| && Lengths(lens, bl, t.leaves, d)
    ensures opt == opt0 + BitTotal(lens, freq, d, d.elems) && stat == stat0 + StaticTotal(freq, d, d.elems)
    ensures Whole(t) && (Deep(t, t.elems, d.maxLength) == 0 ==> Uncut(t, lens))
    ensures (forall n :: 0 <= n < d.elems ==> lens[n] < d.maxLength) ==> Uncut(t, lens)
    ensures Uncut(t, lens) || RareIsLong(lens, freq, d.elems)
  {
    hide Rising, Falling, RareIsLong, Listed, SumSeq, Visited, Repairing, Counted, Deep, Pow2, Depth, BitTotal, StaticTotal, Limited, Bits, StaticBits, TooDeep, Xbits, Lengths, LeafTotal, Uncut;
    var overflow, optPass, statPass;
    lens, bl, overflow, optPass, statPass := FirstPass(order, root, dl, freq, d, t);
    PassState(lens, bl, order, t, d);
    LeafLens(lens, order, t, d.maxLength);
    SumBits(order, t, lens, freq, d);
    if overflow == 0 {
      LengthsOf(order, t, lens, bl, dl, d);
      NotCut(t, lens, d.maxLength);
    } else {
      lens, bl, optPass := Shorten(order, bl, lens, freq, d, overflow, optPass, dl, t);
      SumBits(order, t, lens, freq, d);
      HitsLimit(lens, bl, t.leaves, d);
      RareFromList(order, t, lens, bl, freq, d);
    }
    opt, stat := opt0 + optPass, stat0 + statPass;
  }

  lemma {:induction false} HitsLimit(lens: seq<nat>, bl: seq<nat>, leaves: set<nat>, d: Desc)
    requires Lengths(lens, bl, leaves, d) && bl[d.maxLength] > 0
    ensures exists n :: 0 <= n < d.elems && lens[n] >= d.maxLength
  {
    hide Kraft, Pow2, InRange;
    RangeZero(lens, leaves, d.elems, d.maxLength);
    SomeSame(lens, d.elems, d.maxLength);
  }

  lemma {:induction false} SomeSame(lens: seq<nat>, m: nat, b: nat)
    requires m <= |lens| && Same(lens, m, b) > 0
    ensures exists n :: 0 <= n < m && lens[n] == b
    decreases m
  {
    if m > 0 && lens[m - 1] != b { SomeSame(lens, m - 1, b); }
  }

  /** Every leaf has its depth as length. */
  ghost predicate Uncut(t: Forest, lens: seq<nat>)
    requires Whole(t)
  {
    forall n: nat :: n in t.leaves ==> n < |lens| && InTree(t, n) && lens[n] == Depth(t, n)
  }

  lemma RepairedKraft(bl: seq<nat>, max: nat, leaves: int)
    requires Repairing(bl, max, 0, leaves)
    ensures |bl| == MAX_BITS + 1 && max <= MAX_BITS && Kraft(bl, max, max) == Pow2(max)
  {
  }

  lemma RangeZero(lens: seq<nat>, leaves: set<nat>, elems: nat, max: nat)
    requires InRange(lens, leaves, elems, max)
    ensures elems <= |lens| && forall n: nat :: n < elems && n !in leaves ==> lens[n] == 0
  {
  }

  lemma {:induction false} NoneDeep(t: Forest, k: nat, n: nat, max: nat)
    requires Whole(t) && t.elems <= k <= n < t.node && Deep(t, k, max) == 0
    ensures Depth(t, n) < max
    decreases n - k
  {
    hide Good, Depth;
    if k < n { NoneDeep(t, k + 1, n, max); }
  }

  /** Without excess no leaf was cut. */
  lemma {:induction false} NotCut(t: Forest, lens: seq<nat>, max: nat)
    requires Whole(t) && Deep(t, t.elems, max) == 0
    requires forall n: nat :: n in t.leaves ==> n < |lens| && InTree(t, n) && lens[n] == Limited(t, n, max)
    ensures Uncut(t, lens)
  {
    hide Good, Deep;
    Sizes(t);
    forall n: nat | n in t.leaves ensures lens[n] == Depth(t, n) {
      ParentOf(t, n);
      NoneDeep(t, t.elems, t.dad[n], max);
    }
  }
}
