/** build_tree as a whole: from frequencies to code lengths and codes, with exact bit totals. */
module TreeBuilder {
  import opened Arithmetic
  import opened BitSeq
  import opened HuffmanOptimal
  import opened HuffmanTree
  import opened HuffmanHeap
  import opened HuffmanMerge
  import opened HuffmanBuild
  import opened HuffmanDepth
  import opened HuffmanGreedy
  import opened HuffmanLengths
  import opened HuffmanRepair
  import opened HuffmanGen
  import opened HuffmanCodes
  import opened HuffmanBest

  // ---------- forced codes ----------

  function SumAt(xs: seq<nat>, ls: seq<nat>): nat
    requires forall i :: 0 <= i < |xs| ==> xs[i] < |ls|
  {
    if xs == [] then 0 else SumAt(xs[..|xs| - 1], ls) + ls[xs[|xs| - 1]]
  }

  /** The symbols that may be forced have no extra bits. */
  predicate FlatStart(d: Desc)
    requires ValidDesc(d)
  {
    Xbits(d, 0) == 0 && Xbits(d, 1) == 0 && Xbits(d, 2) == 0
  }

  lemma {:induction false} BitTotalChange(ls: seq<nat>, freq: seq<nat>, d: Desc, m: nat, x: nat)
    requires ValidDesc(d) && m <= d.elems && m <= |ls| && m <= |freq| && x < |freq| && freq[x] == 1
    ensures BitTotal(ls, freq, d, m) == BitTotal(ls, freq[x := 0], d, m) + (if x < m then ls[x] + Xbits(d, x) else 0)
    decreases m
  {
    hide Pow2, Xbits;
    if m > 0 {
      BitTotalChange(ls, freq, d, m - 1, x);
      if x == m - 1 { assert freq[x := 0][x] * (ls[x] + Xbits(d, x)) == 0; }
    }
  }

  lemma {:induction false} BitTotalSame(ls: seq<nat>, ls': seq<nat>, freq: seq<nat>, freq': seq<nat>, d: Desc, m: nat)
    requires ValidDesc(d) && m <= d.elems && m <= |ls| && m <= |freq| && m <= |freq'| && m <= |ls'|
    requires forall n :: 0 <= n < m ==> freq[n] == freq'[n] && ls[n] == ls'[n]
    ensures BitTotal(ls, freq, d, m) == BitTotal(ls', freq', d, m)
    decreases m
  {
    hide Pow2, Xbits;
    if m > 0 { BitTotalSame(ls, ls', freq, freq', d, m - 1); }
  }

  lemma ForcedLess(freq: seq<nat>, freq': seq<nat>, forced: seq<nat>)
    requires Forced(freq, freq', forced) && forced != []
    ensures var i := |forced| - 1; freq'[forced[i]] == 1 && Forced(freq, freq'[forced[i] := 0], forced[..i])
  {
    var i := |forced| - 1;
    assert forced == forced[..i] + [forced[i]];
    assert forced[i] in forced;
  }

  /** Giving frequency 1 to symbols that do not occur costs their lengths. */
  lemma {:induction false} ForcedTotal(ls: seq<nat>, freq: seq<nat>, freq': seq<nat>, forced: seq<nat>, d: Desc)
    requires ValidDesc(d) && FlatStart(d) && d.elems <= |ls| && d.elems <= |freq| && Forced(freq, freq', forced)
    ensures BitTotal(ls, freq', d, d.elems) == BitTotal(ls, freq, d, d.elems) + SumAt(forced, ls)
    decreases |forced|
  {
    hide Pow2, BitTotal;
    if forced == [] {
      assert freq' == freq;
    } else {
      var i := |forced| - 1;
      var x := forced[i];
      var less := freq'[x := 0];
      ForcedLess(freq, freq', forced);
      ForcedTotal(ls, freq, less, forced[..i], d);
      BitTotalChange(ls, freq', d, d.elems, x);
    }
  }

  lemma {:induction false} SumOnes(xs: seq<nat>, ls: seq<nat>)
    requires forall i :: 0 <= i < |xs| ==> xs[i] < |ls| && ls[xs[i]] == 1
    ensures SumAt(xs, ls) == |xs|
    decreases |xs|
  {
    if xs != [] { SumOnes(xs[..|xs| - 1], ls); }
  }

  /** With two leaves, both codes have one bit. */
  lemma {:induction false} TwoLeaves(t: Forest, lens: seq<nat>, max: nat)
    requires Whole(t) && t.node == t.elems + 1 && max >= 1
    ensures Deep(t, t.elems, max) == 0
    ensures Uncut(t, lens) ==> forall n: nat :: n in t.leaves ==> n < |lens| && lens[n] == 1
  {
    hide Good;
    Sizes(t);
    assert Depth(t, t.node - 1) == 0;
    assert Deep(t, t.node, max) == 0;
    forall n: nat | n in t.leaves ensures InTree(t, n) && Depth(t, n) == 1 { ParentOf(t, n); }
  }

  // ---------- from counts over all symbols to the code up to max_code ----------

  lemma {:induction false} SameTail(lens: seq<nat>, k: nat, m: nat, b: nat)
    requires k <= m <= |lens| && b >= 1 && forall n :: k <= n < m ==> lens[n] == 0
    ensures Same(lens, m, b) == Same(lens, k, b)
    decreases m
  {
    if k < m { SameTail(lens, k, m - 1, b); }
  }

  lemma {:induction false} NoSame(lens: seq<nat>, m: nat, b: nat)
    requires m <= |lens| && forall n :: 0 <= n < m ==> lens[n] != b
    ensures Same(lens, m, b) == 0
    decreases m
  {
    if m > 0 { NoSame(lens, m - 1, b); }
  }

  lemma {:induction false} KraftScale(bl: seq<nat>, max: nat, big: nat, b: nat)
    requires b <= max <= big < |bl|
    ensures Kraft(bl, big, b) == Kraft(bl, max, b) * Pow2(big - max)
    decreases b
  {
    Pow2Add(max - b, big - max);
    var u := Pow2(big - max);
    MulAssoc(bl[b], Pow2(max - b), u);
    if b > 0 {
      KraftScale(bl, max, big, b - 1);
      Distribute(bl[b] * Pow2(max - b), Kraft(bl, max, b - 1), u);
    }
  }

  lemma {:induction false} KraftTop(bl: seq<nat>, max: nat, b: nat, c: nat)
    requires b <= c <= max < |bl| && forall i :: b < i <= c ==> bl[i] == 0
    ensures Kraft(bl, max, c) == Kraft(bl, max, b)
    decreases c
  {
    if b < c { KraftTop(bl, max, b, c - 1); }
  }

  /** A Kraft sum of one at the limit is a Kraft sum of one. */
  lemma {:induction false} FullKraft(bl: seq<nat>, max: nat)
    requires |bl| == MAX_BITS + 1 && max <= MAX_BITS && (forall b :: max < b <= MAX_BITS ==> bl[b] == 0)
    requires Kraft(bl, max, max) == Pow2(max)
    ensures Kraft(bl, MAX_BITS, MAX_BITS) == Pow2(MAX_BITS)
  {
    hide Kraft, Pow2;
    KraftScale(bl, max, MAX_BITS, max);
    KraftTop(bl, MAX_BITS, max, MAX_BITS);
    Pow2Add(max, MAX_BITS - max);
  }

  /** The code up to the last symbol that occurs. */
  lemma {:induction false} CodeUpTo(lens: seq<nat>, bl: seq<nat>, leaves: set<nat>, d: Desc, k: nat)
    requires ValidDesc(d) && Lengths(lens, bl, leaves, d) && k <= d.elems && forall n :: k <= n < d.elems ==> lens[n] == 0
    ensures k <= |lens| && CountsOf(lens[..k]) == bl && CodeLens(lens[..k])
    ensures Kraft(bl, MAX_BITS, MAX_BITS) == Pow2(MAX_BITS)
    ensures forall n :: 0 <= n < k ==> lens[n] <= d.maxLength
  {
    hide Kraft, Pow2, Same;
    var c := lens[..k];
    forall n | 0 <= n < d.elems ensures lens[n] <= d.maxLength { var x: nat := n; assert x in leaves || x !in leaves; }
    forall b | 1 <= b <= MAX_BITS ensures bl[b] == CountsOf(c)[b] {
      SameTail(lens, k, d.elems, b);
      SamePrefix(lens, k, k, b);
    }
    forall b | d.maxLength < b <= MAX_BITS ensures bl[b] == 0 { NoSame(lens, d.elems, b); }
    FullKraft(bl, d.maxLength);
  }

  // ---------- build_tree ----------

  /** A code for exactly the symbols that occur: within the limit, ending with the last such symbol, and complete. */
  ghost predicate CodeFor(lens: seq<nat>, freq: seq<nat>, d: Desc) {
    && 0 < |lens| <= d.elems <= |freq| && lens[|lens| - 1] != 0
    && (forall n :: 0 <= n < |lens| ==> lens[n] <= d.maxLength && (lens[n] != 0 <==> freq[n] != 0))
    && (forall n :: |lens| <= n < d.elems ==> freq[n] == 0)
    && Kraft(CountsOf(lens), MAX_BITS, MAX_BITS) == Pow2(MAX_BITS)
  }

  ghost function Occurring(freq: seq<nat>, m: nat): set<nat>
    requires m <= |freq|
  {
    set n: nat | n < m && freq[n] != 0
  }

  /** Of all prefix codes for the symbols that occur, none takes fewer bits. */
  ghost predicate Optimal(lens: seq<nat>, freq: seq<nat>, elems: nat)
    requires |lens| <= elems <= |freq|
  {
    forall ws: seq<seq<Bit>> {:trigger WordCost(Occurring(freq, elems), 0, elems, freq, ws)} ::
      |ws| == elems && PrefixCode(WordsOf(From(Occurring(freq, elems), 0, elems), ws))
      ==> LengthCost(lens, freq, |lens|) <= WordCost(Occurring(freq, elems), 0, elems, freq, ws)
  }

  lemma {:induction false} CostPrefix(lens: seq<nat>, k: nat, freq: seq<nat>, m: nat)
    requires k <= m <= |lens| && m <= |freq| && forall n :: k <= n < m ==> freq[n] == 0
    ensures LengthCost(lens[..k], freq, k) == LengthCost(lens, freq, m)
    decreases m
  {
    if k < m {
      CostPrefix(lens, k, freq, m - 1);
      assert freq[m - 1] * lens[m - 1] == 0;
    } else {
      CostTake(lens, k, freq, k);
    }
  }

  lemma {:induction false} CostTake(lens: seq<nat>, k: nat, freq: seq<nat>, m: nat)
    requires m <= k <= |lens| && m <= |freq|
    ensures LengthCost(lens[..k], freq, m) == LengthCost(lens, freq, m)
    decreases m
  {
    if m > 0 { CostTake(lens, k, freq, m - 1); }
  }

  lemma {:induction false} TotalPrefix(lens: seq<nat>, k: nat, freq: seq<nat>, d: Desc, m: nat)
    requires ValidDesc(d) && k <= m <= |lens| && m <= |freq| && m <= d.elems && forall n :: k <= n < m ==> freq[n] == 0
    ensures BitTotal(lens[..k], freq, d, k) == BitTotal(lens, freq, d, m)
    decreases m
  {
    hide Pow2, Xbits;
    if k < m {
      TotalPrefix(lens, k, freq, d, m - 1);
      assert freq[m - 1] * (lens[m - 1] + Xbits(d, m - 1)) == 0;
    } else {
      BitTotalSame(lens[..k], lens, freq, freq, d, k);
    }
  }

  lemma {:induction false} BuiltOptimal(t: Forest, list: seq<nat>, lens: seq<nat>, freq: seq<nat>, k: nat)
    requires Whole(t) && Uncut(t, lens) && k <= t.elems <= |lens| && t.elems <= |freq| && t.elems <= |t.w|
    requires forall n: nat :: n < t.elems ==> t.w[n] == freq[n]
    requires forall n: nat :: n in t.leaves <==> n < t.elems && freq[n] != 0
    requires forall n :: k <= n < t.elems ==> freq[n] == 0
    requires multiset(list) == multiset(t.leaves) && t.leaves != {} && Below(list, t.elems)
    requires InnerWeight(t, t.elems) == MergeCost(WeightsOf(list, freq))
    ensures Optimal(lens[..k], freq, t.elems)
  {
    hide Whole, Uncut, MergeCost, WeightsOf, PrefixCode, WordCost, LengthCost, InnerWeight;
    assert Occurring(freq, t.elems) == t.leaves;
    CostPrefix(lens, k, freq, t.elems);
    forall ws: seq<seq<Bit>> | |ws| == t.elems && PrefixCode(WordsOf(From(t.leaves, 0, t.elems), ws))
      ensures LengthCost(lens[..k], freq, k) <= WordCost(t.leaves, 0, t.elems, freq, ws)
    {
      HuffmanIsOptimal(t, list, lens, freq, ws);
    }
  }

  // ---------- what optimality says of two symbols ----------

  lemma {:induction false} UnrelatedWords(ws: seq<seq<Bit>>)
    requires forall i, j :: 0 <= i < j < |ws| ==> Unrelated(ws[i], ws[j])
    ensures PrefixCode(ws)
    decreases |ws|
  {
    hide Unrelated;
    if ws != [] { UnrelatedWords(ws[1..]); }
  }

  lemma {:induction false} FromRises(leaves: set<nat>, k: nat, m: nat, i: nat, j: nat)
    requires k <= m && i < j < |From(leaves, k, m)|
    ensures From(leaves, k, m)[i] < From(leaves, k, m)[j]
    decreases m - k
  {
    if k in leaves {
      if i > 0 { FromRises(leaves, k + 1, m, i - 1, j - 1); }
    } else {
      FromRises(leaves, k + 1, m, i, j);
    }
  }

  /** n and m exchanged. */
  function Swap(n: nat, m: nat, x: nat): nat {
    if x == n then m else if x == m then n else x
  }

  /** The words of a code with those of two symbols exchanged. */
  ghost function SwappedWords(lens: seq<nat>, n: nat, m: nat, elems: nat): (ws: seq<seq<Bit>>)
    requires n < |lens| && m < |lens|
    ensures |ws| == elems
    ensures forall x: nat :: x < elems ==> |ws[x]| == (if HasCode(lens, Swap(n, m, x)) then lens[Swap(n, m, x)] else 0)
  {
    seq(elems, x requires 0 <= x < elems => if HasCode(lens, Swap(n, m, x)) then CodeSeq(lens, Swap(n, m, x)) else [])
  }

  lemma {:induction false} SwappedPrefixCode(lens: seq<nat>, leaves: set<nat>, n: nat, m: nat, elems: nat)
    requires CodeLens(lens) && |lens| <= elems && n in leaves && m in leaves && n < |lens| && m < |lens|
    requires forall x: nat :: x in leaves ==> HasCode(lens, x)
    ensures PrefixCode(WordsOf(From(leaves, 0, elems), SwappedWords(lens, n, m, elems)))
  {
    hide CodeLens, CodeSeq, HasCode, From, PrefixCode;
    var ns, ws := From(leaves, 0, elems), SwappedWords(lens, n, m, elems);
    forall i, j | 0 <= i < j < |ns| ensures Unrelated(WordsOf(ns, ws)[i], WordsOf(ns, ws)[j]) {
      FromRises(leaves, 0, elems, i, j);
      PrefixFree(lens, Swap(n, m, ns[i]), Swap(n, m, ns[j]));
      PrefixFree(lens, Swap(n, m, ns[j]), Swap(n, m, ns[i]));
    }
    UnrelatedWords(WordsOf(ns, ws));
  }

  /** From symbol k on, the words cost what their lengths cost. */
  lemma {:induction false} WordsCost(leaves: set<nat>, k: nat, m: nat, freq: seq<nat>, ws: seq<seq<Bit>>, lens: seq<nat>)
    requires k <= m <= |freq| && m <= |ws| && m <= |lens|
    requires forall x: nat :: x < m ==> if x in leaves then lens[x] == |ws[x]| else freq[x] == 0
    ensures WordCost(leaves, k, m, freq, ws) + LengthCost(lens, freq, k) == LengthCost(lens, freq, m)
    decreases m - k
  {
    if k < m {
      WordsCost(leaves, k + 1, m, freq, ws, lens);
      if k !in leaves { assert freq[k] * lens[k] == 0; }
    }
  }

  lemma {:induction false} OneCost(lens: seq<nat>, freq: seq<nat>, x: nat, v: nat, m: nat)
    requires x < m <= |lens| && m <= |freq|
    ensures LengthCost(lens[x := v], freq, m) + freq[x] * lens[x] == LengthCost(lens, freq, m) + freq[x] * v
    decreases m
  {
    if x < m - 1 { OneCost(lens, freq, x, v, m - 1); } else { SameLengths(lens[x := v], lens, freq, x); }
  }

  lemma {:induction false} SameLengths(lens: seq<nat>, lens': seq<nat>, freq: seq<nat>, m: nat)
    requires m <= |lens| && m <= |lens'| && m <= |freq| && forall x :: 0 <= x < m ==> lens[x] == lens'[x]
    ensures LengthCost(lens, freq, m) == LengthCost(lens', freq, m)
    decreases m
  {
    if m > 0 { SameLengths(lens, lens', freq, m - 1); }
  }

  lemma {:induction false} LongCost(lens: seq<nat>, freq: seq<nat>, k: nat, m: nat)
    requires k <= m <= |lens| && m <= |freq| && forall x :: k <= x < m ==> freq[x] == 0
    ensures LengthCost(lens, freq, m) == LengthCost(lens, freq, k)
    decreases m
  {
    if k < m {
      LongCost(lens, freq, k, m - 1);
      assert freq[m - 1] * lens[m - 1] == 0;
    }
  }

  lemma Exchange(a: nat, b: nat, x: nat, y: nat)
    requires a < b && x < y
    ensures a * y + b * x < a * x + b * y
  {
    assert (b - a) * (y - x) == b * y - b * x - a * y + a * x;
    assert (b - a) * (y - x) >= 1;
  }

  /** Exchanging the words of a rare and a frequent symbol would save bits if the rare one had the shorter word. */
  lemma {:induction false} OptimalRare(lens: seq<nat>, freq: seq<nat>, d: Desc, n: nat, m: nat)
    requires CodeFor(lens, freq, d) && CodeLens(lens) && Optimal(lens, freq, d.elems) && n < |lens| && m < |lens|
    requires lens[n] != 0 && lens[m] != 0 && freq[n] < freq[m]
    ensures lens[n] >= lens[m]
  {
    hide CodeLens, Kraft, Pow2, LengthCost, WordCost, PrefixCode, CodeSeq, CountsOf, SwappedWords;
    if lens[n] < lens[m] {
      var leaves, elems := Occurring(freq, d.elems), d.elems;
      CodesExist(lens);
      var ws := SwappedWords(lens, n, m, elems);
      SwappedPrefixCode(lens, leaves, n, m, elems);
      var one := lens[n := lens[m]];
      var both := one[m := lens[n]];
      var long := both + seq(elems - |lens|, _ => 0);
      WordsCost(leaves, 0, elems, freq, ws, long);
      LongCost(long, freq, |lens|, elems);
      SameLengths(long, both, freq, |lens|);
      OneCost(lens, freq, n, lens[m], |lens|);
      OneCost(one, freq, m, lens[n], |lens|);
      Exchange(freq[n], freq[m], lens[n], lens[m]);
      NoCost(long, freq);
      assert false;
    }
  }

  lemma NoCost(lens: seq<nat>, freq: seq<nat>)
    ensures LengthCost(lens, freq, 0) == 0
  {
  }

  lemma CodesExist(lens: seq<nat>)
    requires CodeLens(lens)
    ensures forall x: nat :: x < |lens| && lens[x] != 0 ==> HasCode(lens, x)
  {
    hide Kraft, Pow2, CountsOf;
  }

  /** The tree over the symbols that occur, and the list of its nodes that gen_bitlen walks. */
  ghost predicate Grown(t: Forest, order: seq<nat>, freq: seq<nat>, dl: seq<nat>, freq1: seq<nat>, list: seq<nat>) {
    && Listed(order, t) && Whole(t) && freq == t.w && dl == t.dad && t.elems < t.node <= |dl| == |freq|
    && t.elems <= |freq1| && (forall n: nat :: n < t.elems ==> freq[n] == freq1[n])
    && (forall n: nat :: n in t.leaves <==> n < t.elems && freq1[n] != 0)
    && (forall n: nat :: n < t.elems && n !in t.leaves ==> dl[n] == 0)
    && multiset(list) == multiset(t.leaves) && t.leaves != {} && Below(list, t.elems)
    && t.node - t.elems == |t.leaves| - 1
    && InnerWeight(t, t.elems) == MergeCost(WeightsOf(list, freq1))
  }

  /** The heap part of build_tree. */
  method GrowTree(heap: array<nat>, freq0: seq<nat>, dl0: seq<nat>, elems: nat)
    returns (order: seq<nat>, root: nat, freq: seq<nat>, dl: seq<nat>, depth: seq<nat>, freq1: seq<nat>, maxCode: nat, forced: seq<nat>,
             ghost t: Forest, ghost list: seq<nat>)
    requires 3 <= elems && 2 * elems <= |freq0| == |dl0| && 2 * elems + 1 <= heap.Length
    modifies heap
    ensures t.elems == elems && Grown(t, order, freq, dl, freq1, list) && root == t.node - 1
    ensures Greedy(t, depth) && Falling(order, freq)
    ensures |freq| == |dl| == |freq0| && Forced(freq0, freq1, forced) && LastCode(freq1, elems, maxCode)
    ensures forced != [] ==> |t.leaves| == 2
    ensures FreqTotal(freq0, elems) <= 65532 ==> Narrow(t, depth, 22)
    ensures FreqTotal(freq0, elems) <= 8192 ==> Narrow(t, depth, 18)
  {
    hide Collected, Forced, LastCode, Building, Total, HeapFrom, Built, Grown, Heavy, InnerWeight, MergeCost, WeightsOf,
         FreqTotal, Narrow, Greedy, Falling;
    var len, top, dl1;
    ghost var leaves;
    len, top, dl1, leaves := Collect(heap, freq0, dl0, elems);
    freq1, len, maxCode, forced, leaves := ForceTwo(heap, freq0, len, top, elems, leaves);
    ForcedSize(freq0, freq1, forced);
    depth := seq(|freq1|, _ => 0);
    CollectedNodes(heap[..], len, freq1, depth, elems, leaves);
    ghost var h := heap[..];
    Heapify(heap, len, freq1, depth);
    StillCollected(h, heap[..], len, freq1, elems, leaves);
    Started(heap[..], len, freq1, dl1, depth, elems, leaves);
    StartedHeavy(heap[..], len, freq1, dl1, depth, elems, leaves);
    CollectedSize(heap[..], len, freq1, elems, leaves);
    list := heap[1..len + 1];
    ghost var h1 := heap[..];
    assert h1[1..len + 1] == list;
    var max;
    freq, dl, depth, max, t := MergeAll(heap, len, freq1, dl1, depth, elems, leaves);
    BuiltList(heap[..], max, t);
    order := heap[max + 1..];
    root := heap[max];
    assert heap[..][max + 1..] == order;
    GrownFrom(t, order, freq, dl, freq0, freq1, dl1, forced, h1, len);
    GrownNarrow(t, order, freq, dl, depth, freq1, list);
    ForcedFreqTotal(freq0, freq1, forced, elems);
  }

  lemma {:induction false} ForcedFreqTotal(freq: seq<nat>, freq': seq<nat>, forced: seq<nat>, m: nat)
    requires Forced(freq, freq', forced) && m <= |freq|
    ensures FreqTotal(freq', m) <= FreqTotal(freq, m) + (if m < 3 then m else 3)
    decreases m
  {
    if m > 0 {
      ForcedFreqTotal(freq, freq', forced, m - 1);
      if m - 1 in forced { var i :| 0 <= i < |forced| && forced[i] == m - 1; }
    }
  }

  lemma GrownNarrow(t: Forest, order: seq<nat>, freq: seq<nat>, dl: seq<nat>, depth: seq<nat>, freq1: seq<nat>, list: seq<nat>)
    requires Grown(t, order, freq, dl, freq1, list) && Heavy(t, depth)
    ensures t.elems <= |freq1|
    ensures FreqTotal(freq1, t.elems) <= 65535 ==> Narrow(t, depth, 22)
    ensures FreqTotal(freq1, t.elems) <= 8195 ==> Narrow(t, depth, 18)
  {
    hide Heavy, Whole, Listed, MergeCost, WeightsOf, InnerWeight, FreqTotal, Narrow;
    SameFreqTotal(freq, freq1, t.elems);
    NarrowTree(t, depth);
  }

  lemma ForcedSize(freq: seq<nat>, freq': seq<nat>, forced: seq<nat>)
    requires Forced(freq, freq', forced)
    ensures |freq'| == |freq|
  {
  }

  lemma CollectedNodes(h: seq<nat>, len: nat, freq: seq<nat>, depth: seq<nat>, elems: nat, leaves: set<nat>)
    requires Collected(h, len, freq, elems, leaves) && |depth| == |freq|
    ensures Nodes(h, len, freq, depth)
  {
    forall i | 1 <= i <= len ensures h[i] < |freq| {
      assert h[i] == h[1..len + 1][i - 1];
      assert h[i] in multiset(leaves);
    }
  }

  lemma StillCollected(h: seq<nat>, h': seq<nat>, len: nat, freq: seq<nat>, elems: nat, leaves: set<nat>)
    requires Collected(h, len, freq, elems, leaves) && |h'| == |h| && multiset(h'[1..len + 1]) == multiset(h[1..len + 1])
    ensures Collected(h', len, freq, elems, leaves)
  {
  }

  lemma BuiltList(h: seq<nat>, max: nat, t: Forest)
    requires Built(h, max, t)
    ensures max < |h| && h[max] == t.node - 1 && Listed(h[max + 1..], t)
  {
  }

  lemma {:induction false} GrownFrom(t: Forest, order: seq<nat>, freq: seq<nat>, dl: seq<nat>, freq0: seq<nat>, freq1: seq<nat>, dl1: seq<nat>, forced: seq<nat>, h: seq<nat>, len: nat)
    requires Listed(order, t) && freq == t.w && dl == t.dad && |dl| == |freq| == |freq1| == |dl1|
    requires Collected(h, len, freq1, t.elems, t.leaves) && len >= 2 && t.node - t.elems == |t.leaves| - 1
    requires forall n :: 0 <= n < t.elems ==> freq[n] == freq1[n]
    requires forall n :: 0 <= n < t.elems && n !in t.leaves ==> dl[n] == dl1[n]
    requires Forced(freq0, freq1, forced) && forall n :: 0 <= n < t.elems && freq0[n] == 0 ==> dl1[n] == 0
    requires TotalDefined(h, len, Seedlings(t.elems, t.leaves, dl1, freq1))
    requires InnerWeight(t, t.elems) == Total(h, len, Seedlings(t.elems, t.leaves, dl1, freq1))
             && Total(h, len, Seedlings(t.elems, t.leaves, dl1, freq1)) == MergeCost(WeightsOf(h[1..len + 1], freq1))
    ensures Grown(t, order, freq, dl, freq1, h[1..len + 1])
  {
    hide InnerWeight, MergeCost, WeightsOf, Total, Good, ParentsFirst;
    ListedSizes(order, t);
    CollectedSize(h, len, freq1, t.elems, t.leaves);
    var list := h[1..len + 1];
    forall j | 0 <= j < |list| ensures list[j] < t.elems { assert list[j] in multiset(t.leaves); }
  }

  /** build_tree: a complete code for the symbols that occur (and those that are forced), with the totals exact
      for the symbols that occur; optimal if no code reaches the limit; a rarer symbol never has a shorter code than
      a more frequent one; the tree joins the first two roots by weight and height every time, and if no leaf lies
      below the limit, the lengths are its depths. */
  method BuildTree(heap: array<nat>, freq0: seq<nat>, dl0: seq<nat>, d: Desc, opt0: int, stat0: int)
    returns (lens: seq<nat>, codes: seq<nat>, opt: int, stat: int, freq1: seq<nat>, forced: seq<nat>, ghost t: Forest, ghost depth: seq<nat>)
    requires ValidDesc(d) && FlatStart(d) && 2 * d.elems <= |freq0| == |dl0| && 2 * d.elems + 1 <= heap.Length
    modifies heap
    ensures Forced(freq0, freq1, forced) && CodeFor(lens, freq1, d) && Codes(codes, lens) && |codes| == |lens|
    ensures opt == opt0 + BitTotal(lens, freq0, d, |lens|) && stat == stat0 + StaticTotal(freq0, d, d.elems)
    ensures TreeOver(t, freq1, d.elems) && Greedy(t, depth)
    ensures forall n, m :: 0 <= n < |lens| && 0 <= m < |lens| && lens[n] != 0 && lens[m] != 0 && freq1[n] < freq1[m] ==>
              lens[n] >= lens[m]
    ensures Whole(t) && (NoneBelow(t, d.maxLength) ==> Uncut(t, lens))
    ensures (forall n :: 0 <= n < |lens| ==> lens[n] < d.maxLength) ==> Optimal(lens, freq1, d.elems)
    ensures NoneBelow(t, d.maxLength) ==> Optimal(lens, freq1, d.elems)
    ensures FreqTotal(freq0, d.elems) <= 65532 ==> Narrow(t, depth, 22)
    ensures FreqTotal(freq0, d.elems) <= 8192 ==> Narrow(t, depth, 18)
  {
    hide Forced, LastCode, Grown, BitTotal, StaticTotal, Lengths, CodeFor, Codes, Optimal, Uncut, Listed, Kraft, Pow2, CodeLens, InnerWeight,
         MergeCost, WeightsOf, CountsOf, Deep, Whole, FreqTotal, Narrow, NoneBelow, TreeOver, Greedy, Falling, RareIsLong;
    var order, root, freq, dl, depths, maxCode;
    ghost var list;
    order, root, freq, dl, depths, freq1, maxCode, forced, t, list := GrowTree(heap, freq0, dl0, d.elems);
    depth := depths;
    GrownOver(t, order, freq, dl, freq1, list);
    GrownSizes(t, order, freq, dl, freq1, list);
    ForcedSize(freq0, freq1, forced);
    ForcedIn(freq0, freq1, forced, d);
    opt := opt0 - |forced|;
    stat := stat0 - (if d.hasStatic then SumAt(forced, d.staticLen) else 0);
    var all, bl;
    all, bl, opt, stat := GenBitlen(order, root, dl, freq, d, opt, stat, t);
    LengthsSize(all, bl, t.leaves, d);
    Totals(t, order, freq, dl, freq0, freq1, forced, list, all, d);
    LastCodeSize(freq1, d.elems, maxCode);
    lens := all[..maxCode + 1];
    Truncated(t, order, freq, dl, freq0, freq1, forced, list, all, bl, d, maxCode);
    RareLong(t, all, freq, freq1, lens, maxCode, d);
    OverWhole(t, freq1, d.elems);
    codes := GenCodes(lens, bl);
  }

  lemma OverWhole(t: Forest, freq: seq<nat>, elems: nat)
    requires TreeOver(t, freq, elems)
    ensures Whole(t) && elems <= |freq|
  {
    hide Whole;
  }

  lemma GrownSizes(t: Forest, order: seq<nat>, freq: seq<nat>, dl: seq<nat>, freq1: seq<nat>, list: seq<nat>)
    requires Grown(t, order, freq, dl, freq1, list)
    ensures Listed(order, t) && Whole(t) && freq == t.w && dl == t.dad && t.elems < t.node <= |dl| == |freq| && t.elems <= |freq1|
    ensures forall n: nat :: n < t.elems && n !in t.leaves ==> dl[n] == 0 && freq[n] == 0
    ensures forall n: nat :: n < t.elems ==> freq[n] == freq1[n]
  {
    hide Listed, Whole, InnerWeight, MergeCost, WeightsOf;
  }

  lemma ForcedIn(freq: seq<nat>, freq': seq<nat>, forced: seq<nat>, d: Desc)
    requires ValidDesc(d) && Forced(freq, freq', forced)
    ensures forall i :: 0 <= i < |forced| ==> forced[i] <= 2 && forced[i] < d.elems
    ensures d.hasStatic ==> forall i :: 0 <= i < |forced| ==> forced[i] < |d.staticLen|
  {
    hide Pow2;
  }

  lemma LengthsSize(lens: seq<nat>, bl: seq<nat>, leaves: set<nat>, d: Desc)
    requires Lengths(lens, bl, leaves, d)
    ensures d.elems <= |lens| && |bl| == MAX_BITS + 1 && InRange(lens, leaves, d.elems, d.maxLength)
  {
    hide Kraft, Pow2;
  }

  lemma LastCodeSize(freq: seq<nat>, elems: nat, maxCode: nat)
    requires LastCode(freq, elems, maxCode)
    ensures maxCode < elems <= |freq| && freq[maxCode] != 0 && forall n :: maxCode < n < elems ==> freq[n] == 0
  {
  }

  /** The forced symbols are taken out of the totals again. */
  lemma {:induction false} Totals(t: Forest, order: seq<nat>, freq: seq<nat>, dl: seq<nat>, freq0: seq<nat>, freq1: seq<nat>, forced: seq<nat>, list: seq<nat>, all: seq<nat>, d: Desc)
    requires ValidDesc(d) && FlatStart(d) && t.elems == d.elems <= |all| && Grown(t, order, freq, dl, freq1, list)
    requires Forced(freq0, freq1, forced) && d.elems <= |freq0| == |freq1|
    requires forced != [] ==> |t.leaves| == 2
    requires Whole(t) && (Deep(t, t.elems, d.maxLength) == 0 ==> Uncut(t, all))
    requires forall i :: 0 <= i < |forced| ==> forced[i] < d.elems && (d.hasStatic ==> forced[i] < |d.staticLen|)
    ensures d.elems <= |freq| && BitTotal(all, freq, d, d.elems) - |forced| == BitTotal(all, freq0, d, d.elems)
    ensures StaticTotal(freq, d, d.elems) - (if d.hasStatic then SumAt(forced, d.staticLen) else 0) == StaticTotal(freq0, d, d.elems)
  {
    hide Pow2, BitTotal, Good, Listed, InnerWeight, MergeCost, WeightsOf, Deep, Depth, Uncut;
    ForcedTotal(all, freq0, freq1, forced, d);
    BitTotalSame(all, all, freq, freq1, d, d.elems);
    if d.hasStatic {
      ForcedTotal(d.staticLen, freq0, freq1, forced, d);
      BitTotalSame(d.staticLen, d.staticLen, freq, freq1, d, d.elems);
    }
    if forced != [] {
      TwoLeaves(t, all, d.maxLength);
      forall i | 0 <= i < |forced| ensures all[forced[i]] == 1 {
        assert forced[i] in forced;
        assert freq1[forced[i]] == 1;
      }
    }
    SumOnes(forced, all);
  }

  /** Everything about the code up to max_code. */
  lemma {:induction false} Truncated(t: Forest, order: seq<nat>, freq: seq<nat>, dl: seq<nat>, freq0: seq<nat>, freq1: seq<nat>, forced: seq<nat>, list: seq<nat>, all: seq<nat>, bl: seq<nat>, d: Desc, maxCode: nat)
    requires ValidDesc(d) && t.elems == d.elems <= |all| && Grown(t, order, freq, dl, freq1, list)
    requires Forced(freq0, freq1, forced) && d.elems <= |freq0| == |freq1| && LastCode(freq1, d.elems, maxCode)
    requires Lengths(all, bl, t.leaves, d)
    requires Whole(t) && ((forall n :: 0 <= n < d.elems ==> all[n] < d.maxLength) ==> Uncut(t, all))
    requires Deep(t, t.elems, d.maxLength) == 0 ==> Uncut(t, all)
    ensures var lens := all[..maxCode + 1];
            && CodeFor(lens, freq1, d) && CodeLens(lens) && bl == CountsOf(lens)
            && (Uncut(t, all) ==> Optimal(lens, freq1, d.elems))
            && BitTotal(lens, freq0, d, |lens|) == BitTotal(all, freq0, d, d.elems)
            && ((forall n :: 0 <= n < |lens| ==> lens[n] < d.maxLength) ==> Optimal(lens, freq1, d.elems))
            && (NoneBelow(t, d.maxLength) ==> Optimal(lens, freq1, d.elems))
  {
    hide Pow2, BitTotal, Good, Listed, InnerWeight, MergeCost, WeightsOf, Deep, Depth, Uncut, Optimal, Kraft, CodeLens, CountsOf, Lengths, LengthCost, WordCost, Xbits;
    var k := maxCode + 1;
    LengthsSize(all, bl, t.leaves, d);
    forall n | k <= n < d.elems ensures freq1[n] == 0 && freq0[n] == 0 && all[n] == 0 {
      var x: nat := n;
      assert x !in t.leaves;
    }
    CodeUpTo(all, bl, t.leaves, d, k);
    TotalPrefix(all, k, freq0, d, d.elems);
    forall n | 0 <= n < k ensures all[n] != 0 <==> freq1[n] != 0 {
      var x: nat := n;
      assert x in t.leaves <==> freq1[x] != 0;
    }
    if Uncut(t, all) { BuiltOptimal(t, list, all, freq1, k); }
    if forall n :: 0 <= n < k ==> all[..k][n] < d.maxLength {
      assert forall n :: 0 <= n < k ==> all[n] == all[..k][n];
      BuiltOptimal(t, list, all, freq1, k);
    }
    if NoneBelow(t, d.maxLength) {
      NoneDeep(t, d.maxLength, t.elems);
      BuiltOptimal(t, list, all, freq1, k);
    }
  }

  /** Uncut lengths are depths, and cut ones fall with the frequency; either way rare symbols have the longer codes. */
  lemma {:induction false} RareLong(t: Forest, all: seq<nat>, freq: seq<nat>, freq1: seq<nat>, lens: seq<nat>, maxCode: nat, d: Desc)
    requires ValidDesc(d) && t.elems == d.elems <= |all| && d.elems <= |freq| && TreeOver(t, freq1, d.elems) && LastCode(freq1, d.elems, maxCode)
    requires forall n: nat :: n < d.elems ==> freq[n] == freq1[n]
    requires maxCode < d.elems && lens == all[..maxCode + 1] && CodeFor(lens, freq1, d) && CodeLens(lens)
    requires Whole(t) && (Uncut(t, all) || RareIsLong(all, freq, d.elems))
    requires Uncut(t, all) ==> Optimal(lens, freq1, d.elems)
    requires Deep(t, t.elems, d.maxLength) == 0 ==> Uncut(t, all)
    ensures forall n, m :: 0 <= n < |lens| && 0 <= m < |lens| && lens[n] != 0 && lens[m] != 0 && freq1[n] < freq1[m] ==>
              lens[n] >= lens[m]
    ensures Whole(t) && (NoneBelow(t, d.maxLength) ==> Uncut(t, lens))
  {
    hide Pow2, Good, Deep, Depth, Optimal, CodeFor, CodeLens, Kraft, CountsOf, Uncut;
    if Uncut(t, all) {
      forall n, m | 0 <= n < |lens| && 0 <= m < |lens| && lens[n] != 0 && lens[m] != 0 && freq1[n] < freq1[m] ensures lens[n] >= lens[m] {
        OptimalRare(lens, freq1, d, n, m);
      }
    }
    if NoneBelow(t, d.maxLength) {
      Sizes(t);
      NoneDeep(t, d.maxLength, t.elems);
      UncutTo(t, all, lens);
    }
  }

  lemma UncutTo(t: Forest, all: seq<nat>, lens: seq<nat>)
    requires Whole(t) && Uncut(t, all) && |lens| <= |all| && lens == all[..|lens|] && forall n :: n in t.leaves ==> n < |lens|
    ensures Uncut(t, lens)
  {
    hide Good, Depth;
  }

  /** The tree over the symbols that occur or are forced. */
  ghost predicate TreeOver(t: Forest, freq: seq<nat>, elems: nat) {
    && Whole(t) && t.elems == elems <= |freq| && elems <= |t.w|
    && forall n: nat :: n < elems ==> t.w[n] == freq[n] && (n in t.leaves <==> freq[n] != 0)
  }

  lemma GrownOver(t: Forest, order: seq<nat>, freq: seq<nat>, dl: seq<nat>, freq1: seq<nat>, list: seq<nat>)
    requires Grown(t, order, freq, dl, freq1, list)
    ensures TreeOver(t, freq1, t.elems)
  {
    hide Good, Listed, InnerWeight, MergeCost, WeightsOf;
  }

  /** No leaf lies below the limit. */
  ghost predicate NoneBelow(t: Forest, max: nat) {
    Whole(t) && forall n: nat :: n in t.leaves ==> InTree(t, n) && Depth(t, n) <= max
  }

  lemma {:induction false} NoneDeep(t: Forest, max: nat, k: nat)
    requires NoneBelow(t, max) && t.elems <= k <= t.node
    ensures Deep(t, k, max) == 0
    decreases t.node - k
  {
    hide Good, Depth;
    if k < t.node {
      NoneDeep(t, max, k + 1);
      InnerAbove(t, max, k);
    }
  }

  lemma {:induction false} InnerAbove(t: Forest, max: nat, k: nat)
    requires NoneBelow(t, max) && t.elems <= k < t.node
    ensures Depth(t, k) < max
    decreases k
  {
    hide Good, Depth;
    Sizes(t);
    KidDepth(t, k);
    var a := t.kids[k - t.elems].a;
    if a !in t.leaves { InnerAbove(t, max, a); }
  }
}
