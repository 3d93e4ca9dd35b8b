/** build_tree up to the point where the tree is complete: collecting the symbols that occur, forcing two
    codes, building the heap and merging. */
module HuffmanBuild {
  import opened HuffmanOptimal
  import opened HuffmanTree
  import opened HuffmanHeap
  import opened HuffmanMerge
  import opened HuffmanDepth
  import opened HuffmanGreedy

  /** heap[1..len] lists the symbols below n that occur. */
  ghost predicate Collected(h: seq<nat>, len: nat, freq: seq<nat>, n: nat, leaves: set<nat>) {
    && len <= n <= |freq| && len < |h|
    && multiset(h[1..len + 1]) == multiset(leaves)
    && (forall x: nat :: x in leaves <==> x < n && freq[x] != 0)
  }

  lemma AddLeaf(h: seq<nat>, h': seq<nat>, len: nat, leaves: set<nat>, x: nat)
    requires len + 1 < |h| && h' == h[len + 1 := x] && multiset(h[1..len + 1]) == multiset(leaves) && x !in leaves
    ensures multiset(h'[1..len + 2]) == multiset(leaves + {x})
  {
    assert h'[1..len + 2] == h[1..len + 1] + [x];
  }

  /** The first loop: symbols that do not occur get length 0. */
  method Collect(heap: array<nat>, freq: seq<nat>, dl: seq<nat>, elems: nat) returns (len: nat, maxCode: int, dl': seq<nat>, ghost leaves: set<nat>)
    requires elems <= |freq| == |dl| && elems + 1 < heap.Length
    modifies heap
    ensures Collected(heap[..], len, freq, elems, leaves)
    ensures |dl'| == |dl| && forall n :: 0 <= n < elems && freq[n] == 0 ==> dl'[n] == 0
    ensures LastCode(freq, elems, maxCode)
  {
    hide Collected, LastCode;
    LastCodeNone(freq);
    len, maxCode, dl', leaves := 0, -1, dl, {};
    NoneCollected(heap[..], freq);
    for n := 0 to elems
      invariant Collected(heap[..], len, freq, n, leaves) && len <= n
      invariant |dl'| == |dl| && forall k :: 0 <= k < n && freq[k] == 0 ==> dl'[k] == 0
      invariant LastCode(freq, n, maxCode)
    {
      ghost var h := heap[..];
      LastCodeNext(freq, n, maxCode);
      if freq[n] != 0 {
        len := len + 1;
        heap[len] := n;
        assert heap[..] == h[len := n];
        OneCollected(h, heap[..], len - 1, freq, n, leaves);
        leaves := leaves + {n};
        maxCode := n;
      } else {
        NotCollected(h, len, freq, n, leaves);
        dl' := dl'[n := 0];
      }
    }
  }

  lemma NoneCollected(h: seq<nat>, freq: seq<nat>)
    requires |h| >= 1
    ensures Collected(h, 0, freq, 0, {})
  {
    assert h[1..1] == [];
  }

  lemma OneCollected(h: seq<nat>, h': seq<nat>, len: nat, freq: seq<nat>, n: nat, leaves: set<nat>)
    requires Collected(h, len, freq, n, leaves) && len + 1 < |h| && n < |freq| && freq[n] != 0 && h' == h[len + 1 := n]
    ensures Collected(h', len + 1, freq, n + 1, leaves + {n})
  {
    AddLeaf(h, h', len, leaves, n);
  }

  lemma NotCollected(h: seq<nat>, len: nat, freq: seq<nat>, n: nat, leaves: set<nat>)
    requires Collected(h, len, freq, n, leaves) && n < |freq| && freq[n] == 0
    ensures Collected(h, len, freq, n + 1, leaves)
  {
  }

  /** maxCode is the last symbol below elems that occurs, or -1. */
  ghost predicate LastCode(freq: seq<nat>, elems: nat, maxCode: int) {
    && elems <= |freq| && -1 <= maxCode < elems
    && (forall n :: maxCode < n < elems ==> freq[n] == 0) && (maxCode >= 0 ==> freq[maxCode] != 0)
  }

  lemma LastCodeNone(freq: seq<nat>)
    ensures LastCode(freq, 0, -1)
  {
  }

  lemma LastCodeNext(freq: seq<nat>, n: nat, maxCode: int)
    requires LastCode(freq, n, maxCode) && n < |freq|
    ensures LastCode(freq, n + 1, if freq[n] != 0 then n else maxCode)
  {
  }

  lemma ForcedLeaf(h: seq<nat>, h': seq<nat>, len: nat, freq: seq<nat>, elems: nat, leaves: set<nat>, x: nat)
    requires Collected(h, len, freq, elems, leaves) && len + 1 < |h| && len < elems && x < elems && freq[x] == 0 && h' == h[len + 1 := x]
    ensures Collected(h', len + 1, freq[x := 1], elems, leaves + {x})
  {
    AddLeaf(h, h', len, leaves, x);
  }

  /** Force one more code: the next symbol if the last one is below 2, and 0 otherwise. */
  method ForceOne(heap: array<nat>, freq: seq<nat>, len: nat, maxCode: int, elems: nat, ghost leaves: set<nat>)
    returns (x: nat, freq': seq<nat>, maxCode': int, ghost leaves': set<nat>)
    requires Collected(heap[..], len, freq, elems, leaves) && len < 2 && 3 <= elems && elems + 1 < heap.Length
    requires LastCode(freq, elems, maxCode)
    modifies heap
    ensures x == (if maxCode < 2 then maxCode + 1 else 0) && freq[x] == 0 && freq' == freq[x := 1]
    ensures maxCode' == (if maxCode < 2 then x else maxCode)
    ensures Collected(heap[..], len + 1, freq', elems, leaves') && LastCode(freq', elems, maxCode')
  {
    hide Collected;
    maxCode' := maxCode;
    CollectedSize(heap[..], len, freq, elems, leaves);
    if maxCode < 2 {
      maxCode' := maxCode + 1;
      x := maxCode';
    } else {
      x := 0;
      OnlyOne(heap[..], len, freq, elems, leaves, maxCode);
    }
    ghost var h := heap[..];
    heap[len + 1] := x;
    assert heap[..] == h[len + 1 := x];
    ForcedLeaf(h, heap[..], len, freq, elems, leaves, x);
    leaves' := leaves + {x};
    freq' := freq[x := 1];
  }

  /** Force at least two codes of non zero frequency. */
  method ForceTwo(heap: array<nat>, freq: seq<nat>, len: nat, maxCode: int, elems: nat, ghost leaves: set<nat>)
    returns (freq': seq<nat>, len': nat, maxCode': nat, forced: seq<nat>, ghost leaves': set<nat>)
    requires Collected(heap[..], len, freq, elems, leaves) && 3 <= elems && elems + 1 < heap.Length
    requires LastCode(freq, elems, maxCode)
    modifies heap
    ensures Collected(heap[..], len', freq', elems, leaves') && len' >= 2
    ensures Forced(freq, freq', forced) && (forced != [] ==> len' == 2)
    ensures forced == (if len >= 2 then [] else if len == 0 then [0, 1] else [if maxCode < 2 then maxCode + 1 else 0])
    ensures LastCode(freq', elems, maxCode')
  {
    hide Collected, LastCode;
    freq', len', forced, leaves' := freq, len, [], leaves;
    var top := maxCode;
    NoTop(heap[..], len, freq, elems, leaves, maxCode);
    while len' < 2
      invariant Collected(heap[..], len', freq', elems, leaves') && LastCode(freq', elems, top)
      invariant Forced(freq, freq', forced) && (forced != [] ==> len' <= 2)
      invariant forced == (if len' == len then [] else if len == 0 then (if len' == 1 then [0] else [0, 1]) else [if maxCode < 2 then maxCode + 1 else 0])
      invariant len' == len + |forced| && top == (if len' == len || maxCode >= 2 then maxCode else forced[|forced| - 1])
      decreases 2 - len'
    {
      CollectedSize(heap[..], len', freq', elems, leaves');
      var x;
      ghost var before := freq';
      x, freq', top, leaves' := ForceOne(heap, freq', len', top, elems, leaves');
      ForcedMore(freq, before, forced, x);
      len' := len' + 1;
      forced := forced + [x];
    }
    TopExists(heap[..], len', freq', elems, leaves', top);
    maxCode' := top;
  }

  /** The frequencies after some symbols that did not occur have been given frequency 1. */
  ghost predicate Forced(freq: seq<nat>, freq': seq<nat>, forced: seq<nat>) {
    && |freq'| == |freq|
    && (forall n :: 0 <= n < |freq| ==> freq'[n] == (if n in forced then 1 else freq[n]))
    && (forall i :: 0 <= i < |forced| ==> forced[i] <= 2 && forced[i] < |freq| && freq[forced[i]] == 0)
    && (forall i, j :: 0 <= i < j < |forced| ==> forced[i] != forced[j])
  }

  lemma ForcedMore(freq: seq<nat>, freq': seq<nat>, forced: seq<nat>, x: nat)
    requires Forced(freq, freq', forced) && x < |freq| && x <= 2 && freq'[x] == 0
    ensures Forced(freq, freq'[x := 1], forced + [x])
  {
    assert x !in forced;
  }

  lemma CollectedSize(h: seq<nat>, len: nat, freq: seq<nat>, elems: nat, leaves: set<nat>)
    requires Collected(h, len, freq, elems, leaves)
    ensures elems <= |freq| && len < |h| && |leaves| == len
  {
    assert |multiset(h[1..len + 1])| == len;
  }

  lemma TwoIn(s: set<nat>, a: nat, b: nat)
    requires a in s && b in s && a != b
    ensures |s| >= 2
  {
    assert s == {a, b} + (s - {a, b});
  }

  lemma OnlyOne(h: seq<nat>, len: nat, freq: seq<nat>, elems: nat, leaves: set<nat>, top: nat)
    requires Collected(h, len, freq, elems, leaves) && len < 2 && 2 <= top < elems && freq[top] != 0
    ensures freq[0] == 0
  {
    CollectedSize(h, len, freq, elems, leaves);
    if freq[0] != 0 { TwoIn(leaves, 0, top); }
  }

  lemma NoTop(h: seq<nat>, len: nat, freq: seq<nat>, elems: nat, leaves: set<nat>, top: int)
    requires Collected(h, len, freq, elems, leaves) && LastCode(freq, elems, top)
    ensures len == 0 <==> top == -1
  {
    CollectedSize(h, len, freq, elems, leaves);
    if top >= 0 { assert top in leaves; }
    assert forall x :: x in leaves ==> x <= top;
  }

  lemma TopExists(h: seq<nat>, len: nat, freq: seq<nat>, elems: nat, leaves: set<nat>, top: int)
    requires Collected(h, len, freq, elems, leaves) && len >= 1 && LastCode(freq, elems, top)
    ensures top >= 0
  {
    assert h[1..len + 1][0] in multiset(leaves);
  }

  /** Establish sub-heaps of increasing lengths. */
  method Heapify(heap: array<nat>, len: nat, freq: seq<nat>, depth: seq<nat>)
    requires Nodes(heap[..], len, freq, depth) && len >= 1
    modifies heap
    ensures Nodes(heap[..], len, freq, depth) && HeapFrom(heap[..], len, freq, depth, 1)
    ensures multiset(heap[..][1..len + 1]) == multiset(old(heap[..])[1..len + 1])
    ensures heap[..][len + 1..] == old(heap[..])[len + 1..]
  {
    hide Smaller;
    var n := len / 2;
    while n >= 1
      invariant 0 <= n <= len / 2
      invariant Nodes(heap[..], len, freq, depth) && HeapFrom(heap[..], len, freq, depth, n + 1)
      invariant multiset(heap[..][1..len + 1]) == multiset(old(heap[..])[1..len + 1])
      invariant heap[..][len + 1..] == old(heap[..])[len + 1..]
    {
      ghost var h := heap[..];
      PqDownHeap(heap, len, n, freq, depth);
      MiddlePerm(h, heap[..], len);
      n := n - 1;
    }
  }

  /** The forest of single leaves. */
  function Seedlings(elems: nat, leaves: set<nat>, dl: seq<nat>, freq: seq<nat>): Forest {
    Forest(elems, elems, leaves, dl, [], freq, leaves)
  }

  lemma {:induction false} Started(h: seq<nat>, len: nat, freq: seq<nat>, dl: seq<nat>, depth: seq<nat>, elems: nat, leaves: set<nat>)
    requires Collected(h, len, freq, elems, leaves) && len >= 2 && |dl| == |freq| == |depth| && |freq| >= 2 * elems
    requires |h| >= 2 * elems + 1 && Nodes(h, len, freq, depth) && HeapFrom(h, len, freq, depth, 1)
    ensures Building(h, len, |h|, Seedlings(elems, leaves, dl, freq), depth)
    ensures Total(h, len, Seedlings(elems, leaves, dl, freq)) == MergeCost(WeightsOf(h[1..len + 1], freq))
  {
    hide HeapFrom, MergeCost, WeightsOf;
    var t := Seedlings(elems, leaves, dl, freq);
    CollectedSize(h, len, freq, elems, leaves);
    assert Good(t);
    assert TreeNodes(t) - t.live == {};
    assert h[|h|..] == [];
  }

  lemma {:induction false} StartedHeavy(h: seq<nat>, len: nat, freq: seq<nat>, dl: seq<nat>, depth: seq<nat>, elems: nat, leaves: set<nat>)
    requires Collected(h, len, freq, elems, leaves) && |dl| == |freq| == |depth| && elems <= |freq|
    requires forall n :: 0 <= n < |depth| ==> depth[n] == 0
    ensures Heavy(Seedlings(elems, leaves, dl, freq), depth)
  {
    LeastWeightStart();
  }

  /** The finished tree: its root comes first in the list, and then all other nodes, parents first. */
  ghost predicate Built(h: seq<nat>, max: nat, t: Forest) {
    && Whole(t) && max < |h| && h[max] == t.node - 1
    && multiset(h[max + 1..]) == multiset(TreeNodes(t) - {t.node - 1}) && ParentsFirst(h[max + 1..], t.dad)
  }

  lemma LastLeft(h: seq<nat>, max: nat, t: Forest, depth: seq<nat>)
    requires Building(h, 1, max, t, depth) && |t.leaves| >= 2
    ensures t.live == {h[1]} && h[1] == t.node - 1 && Whole(t) && max >= 3 && 1 + t.node - t.elems == |t.leaves|
  {
    hide KidGood, ParentGood, HeapFrom;
    assert h[1..2] == [h[1]];
    assert multiset(t.live) == multiset{h[1]};
    assert t.node > t.elems;
    assert InTree(t, h[1]);
    assert h[1] in t.live;
    forall x | x in t.live ensures x == h[1] { assert x in multiset(t.live); }
    RootIsLast(t, h[1]);
  }

  lemma RootIsLast(t: Forest, r: nat)
    requires Good(t) && t.live == {r} && t.node > t.elems
    ensures r == t.node - 1
  {
    if r != t.node - 1 {
      assert InTree(t, t.node - 1);
      ParentOf(t, t.node - 1);
    }
  }

  lemma LastTotal(h: seq<nat>, max: nat, t: Forest, depth: seq<nat>)
    requires Building(h, 1, max, t, depth) && t.live == {t.node - 1}
    ensures TotalDefined(h, 1, t) && Total(h, 1, t) == InnerWeight(t, t.elems)
    ensures multiset(h[max..]) == multiset(TreeNodes(t) - {t.node - 1}) && ParentsFirst(h[max..], t.dad)
  {
    hide Good, HeapFrom, InnerWeight, ParentsFirst, TreeNodes;
    BuildingTotal(h, 1, max, t, depth);
    assert h[1..2] == [h[1]] && [h[1]][1..] == [];
    assert |WeightsOf(h[1..2], t.w)| == 1;
  }

  lemma QueueBegins(h: seq<nat>, len: nat, t: Forest, depth: seq<nat>)
    requires Building(h, len, |h|, t, depth) && t.node == t.elems && forall n :: 0 <= n < |depth| ==> depth[n] == 0
    ensures Queued(h[|h|..], t, depth)
  {
    hide Good, HeapFrom;
    assert h[|h|..] == [];
    QueueStart(t, depth);
  }

  lemma QueueEnds(order: seq<nat>, t: Forest, depth: seq<nat>)
    requires Queued(order, t, depth)
    ensures Greedy(t, depth) && Falling(order, t.w)
  {
    hide Greedy, Falling, Under;
  }

  /** Merge until one tree is left; the sum of the inner weights is the cost of merging. */
  method MergeAll(heap: array<nat>, len0: nat, freq0: seq<nat>, dl0: seq<nat>, depth0: seq<nat>, elems: nat, ghost leaves: set<nat>)
    returns (freq: seq<nat>, dl: seq<nat>, depth: seq<nat>, max: nat, ghost t: Forest)
    requires Building(heap[..], len0, heap.Length, Seedlings(elems, leaves, dl0, freq0), depth0) && len0 >= 2
    requires Heavy(Seedlings(elems, leaves, dl0, freq0), depth0) && forall n :: 0 <= n < |depth0| ==> depth0[n] == 0
    modifies heap
    ensures Built(heap[..], max, t) && freq == t.w && dl == t.dad && t.elems == elems && t.leaves == leaves && max >= 2
    ensures t.node - elems == |leaves| - 1 && Heavy(t, depth) && Greedy(t, depth) && Falling(heap[..][max + 1..], t.w)
    ensures TotalDefined(old(heap[..]), len0, Seedlings(elems, leaves, dl0, freq0))
    ensures InnerWeight(t, t.elems) == Total(old(heap[..]), len0, Seedlings(elems, leaves, dl0, freq0))
    ensures |dl| == |dl0| && |freq| == |freq0| && (forall n :: 0 <= n < elems ==> freq[n] == freq0[n])
    ensures forall n :: 0 <= n < elems && n !in leaves ==> dl[n] == dl0[n]
  {
    hide Building, Total, Heavy, Good, LightestPair, Queued, Greedy, Falling, Join, Deeper, TotalDefined, ParentsFirst, InnerWeight, TreeNodes;
    freq, dl, depth := freq0, dl0, depth0;
    var len, node := len0, elems;
    max := heap.Length;
    t := Seedlings(elems, leaves, dl0, freq0);
    BuildingTotal(heap[..], len, max, t, depth);
    QueueBegins(heap[..], len, t, depth);
    ghost var sum := Total(heap[..], len0, t);
    while len >= 2
      invariant Building(heap[..], len, max, t, depth) && freq == t.w && dl == t.dad && node == t.node && len >= 1
      invariant t.elems == elems && t.leaves == leaves && |leaves| >= 2 && max <= heap.Length
      invariant TotalDefined(heap[..], len, t) && Total(heap[..], len, t) == sum && Heavy(t, depth) && Queued(heap[..][max..], t, depth)
      invariant elems <= |dl| == |dl0| && elems <= |freq| == |freq0| && (forall n :: 0 <= n < elems ==> freq[n] == freq0[n])
      invariant forall n :: 0 <= n < elems && n !in leaves ==> dl[n] == dl0[n]
    {
      ghost var t0, depth0, order, n, m := t, depth, heap[..][max..], 0, 0;
      freq, dl, depth, t, n, m := MergeOnce(heap, len, max, freq, dl, depth, node, t);
      HeavyJoin(t0, depth0, n, m);
      QueueStep(order, t0, depth0, n, m);
      len, max, node := len - 1, max - 2, node + 1;
    }
    LastLeft(heap[..], max, t, depth);
    LastTotal(heap[..], max, t, depth);
    QueueEnds(heap[..][max..], t, depth);
    ghost var h := heap[..];
    max := max - 1;
    heap[max] := heap[1];
    assert heap[..][max + 1..] == h[max + 1..];
  }
}
