/** Why the depth of a subtree in build_tree, an eight-bit number there, stays small: a subtree of depth d has at
    least as much weight as the d-th Fibonacci number. */
module HuffmanDepth {
  import opened HuffmanTree
  import opened HuffmanHeap
  import opened HuffmanMerge

  /** 1, 2, 3, 5, 8, and so on. */
  function LeastWeight(d: nat): (r: nat)
    ensures r >= 1
  {
    if d <= 1 then d + 1 else LeastWeight(d - 1) + LeastWeight(d - 2)
  }

  lemma {:induction false} LeastWeightGrows(d: nat, e: nat)
    requires d <= e
    ensures LeastWeight(d) <= LeastWeight(e)
    decreases e
  {
    if d < e { LeastWeightGrows(d, e - 1); }
  }

  /** The depth of an inner node comes from its children, and no root is lighter than a node that has been merged. */
  ghost predicate InnerDepth(t: Forest, depth: seq<nat>, k: nat)
    requires Sized(t) && |depth| == |t.w| && k < |t.kids|
  {
    var a, b := t.kids[k].a, t.kids[k].b;
    && a < |t.w| && b < |t.w| && depth[t.elems + k] == Deeper(depth, a, b)
    && forall x :: x in t.live ==> t.w[a] <= t.w[x] && t.w[b] <= t.w[x]
  }

  ghost predicate NodeHeavy(t: Forest, depth: seq<nat>, n: nat)
    requires n < |t.w| == |depth|
  {
    t.w[n] >= LeastWeight(depth[n])
  }

  ghost predicate Heavy(t: Forest, depth: seq<nat>) {
    && Sized(t) && |depth| == |t.w|
    && (forall n :: n in t.leaves ==> depth[n] == 0)
    && (forall n: nat :: InTree(t, n) ==> NodeHeavy(t, depth, n))
    && (forall k: nat :: k < |t.kids| ==> InnerDepth(t, depth, k))
  }

  /** If a root has been merged, it has a child one level less deep that is no heavier than any other root. */
  lemma {:induction false} HeavyPair(t: Forest, depth: seq<nat>, c: nat, x: nat)
    requires Good(t) && Heavy(t, depth) && c in t.live && x in t.live
    ensures t.w[c] + t.w[x] >= LeastWeight(depth[c] + 1)
  {
    hide Good, LeastWeight;
    assert InTree(t, c) && InTree(t, x);
    assert NodeHeavy(t, depth, c) && NodeHeavy(t, depth, x);
    assert LeastWeight(1) == LeastWeight(0) + 1 by { LeastWeightStart(); }
    if depth[c] > 0 {
      KidsOf(t, c);
      var k := c - t.elems;
      assert InnerDepth(t, depth, k);
      var a, b := t.kids[k].a, t.kids[k].b;
      assert NodeHeavy(t, depth, a) && NodeHeavy(t, depth, b);
      LeastWeightStep(depth[c] + 1);
    }
  }

  lemma LeastWeightStart()
    ensures LeastWeight(0) == 1 && LeastWeight(1) == 2
  {
  }

  lemma LeastWeightStep(d: nat)
    requires d >= 2
    ensures LeastWeight(d) == LeastWeight(d - 1) + LeastWeight(d - 2)
  {
  }

  /** Joining the two lightest roots keeps that. */
  lemma {:induction false} HeavyJoin(t: Forest, depth: seq<nat>, n: nat, m: nat)
    requires Good(t) && Heavy(t, depth) && LightestPair(t, depth, n, m) && t.node < |t.dad|
    ensures n < t.node && m < t.node && Heavy(Join(t, n, m), depth[t.node := Deeper(depth, n, m)])
  {
    hide Good, LeastWeight;
    JoinGood(t, n, m);
    var u, depth' := Join(t, n, m), depth[t.node := Deeper(depth, n, m)];
    assert Sized(u) by { GoodSized(u); }
    HeavyPair(t, depth, n, m);
    HeavyPair(t, depth, m, n);
    forall x: nat | InTree(u, x) ensures NodeHeavy(u, depth', x) {
      if x != t.node { assert NodeHeavy(t, depth, x); }
    }
    forall k: nat | k < |u.kids| ensures InnerDepth(u, depth', k) {
      if k < |t.kids| {
        KidsOf(t, t.elems + k);
        assert InnerDepth(t, depth, k);
      }
    }
  }

  lemma GoodSized(t: Forest)
    requires Good(t)
    ensures Sized(t)
  {
  }

  // ---------- the weight of the root ----------

  lemma {:induction false} NoDeltas(t: Forest, k: nat, g: nat -> int)
    requires Good(t) && t.elems <= k <= t.node && forall n: nat :: n < |t.w| ==> g(n) == t.w[n]
    ensures |t.kids| == t.node - t.elems && Deltas(t, k, g) == 0
    decreases t.node - k
  {
    hide Good;
    Sizes(t);
    if k < t.node {
      NoDeltas(t, k + 1, g);
      KidsOf(t, k);
    }
  }

  function FreqTotal(freq: seq<nat>, m: nat): nat
    requires m <= |freq|
  {
    if m == 0 then 0 else FreqTotal(freq, m - 1) + freq[m - 1]
  }

  lemma {:induction false} LeafTotal(t: Forest, freq: seq<nat>, m: nat, g: nat -> int)
    requires m <= |freq| && (forall n: nat :: n < m ==> g(n) == freq[n] && (n in t.leaves || freq[n] == 0))
    ensures LeafSum(t, m, g) == FreqTotal(freq, m)
    decreases m
  {
    if m > 0 { LeafTotal(t, freq, m - 1, g); }
  }

  lemma {:induction false} RootWeight(t: Forest)
    requires Whole(t) && (forall n: nat :: n < t.elems && n !in t.leaves ==> t.w[n] == 0)
    ensures t.elems <= |t.w| && t.w[t.node - 1] == FreqTotal(t.w, t.elems)
  {
    hide Good;
    Sizes(t);
    var g := (n: nat) => if n < |t.w| then t.w[n] else 0;
    LeavesFromRoot(t, g);
    NoDeltas(t, t.elems, g);
    LeafTotal(t, t.w, t.elems, g);
  }

  lemma {:induction false} UnderRoot(t: Forest, n: nat)
    requires Whole(t) && InTree(t, n)
    ensures n < t.node <= |t.w| && t.w[n] <= t.w[t.node - 1]
    decreases t.node - n
  {
    hide Good;
    Sizes(t);
    if n != t.node - 1 {
      ParentOf(t, n);
      KidsOf(t, t.dad[n]);
      UnderRoot(t, t.dad[n]);
    }
  }

  /** A subtree can only be as deep as the total of the frequencies allows. */
  lemma {:induction false} DepthBound(t: Forest, depth: seq<nat>, n: nat, d: nat)
    requires Whole(t) && Heavy(t, depth) && (forall n: nat :: n < t.elems && n !in t.leaves ==> t.w[n] == 0)
    requires InTree(t, n) && t.elems <= |t.w| && FreqTotal(t.w, t.elems) < LeastWeight(d)
    ensures n < |depth| && depth[n] < d && t.w[n] <= FreqTotal(t.w, t.elems)
  {
    hide Good, LeastWeight;
    RootWeight(t);
    UnderRoot(t, n);
    assert NodeHeavy(t, depth, n);
    if depth[n] >= d { LeastWeightGrows(d, depth[n]); }
  }

  lemma LeastWeights()
    ensures LeastWeight(23) > 65535 && LeastWeight(19) > 8195
  {
    assert LeastWeight(6) == 21 && LeastWeight(7) == 34;
    assert LeastWeight(12) == 377 && LeastWeight(13) == 610;
    assert LeastWeight(18) == 6765 && LeastWeight(19) == 10946;
  }

  /** The weights fit into sixteen bits and the depths are far from filling eight. */
  ghost predicate Narrow(t: Forest, depth: seq<nat>, most: nat) {
    forall n: nat :: InTree(t, n) ==> n < |t.w| && t.w[n] <= 65535 && n < |depth| && depth[n] <= most
  }

  /** With a total of sixteen bits no depth is above 22, and with as many symbols as a block can have none is above 18. */
  lemma {:induction false} NarrowTree(t: Forest, depth: seq<nat>)
    requires Whole(t) && Heavy(t, depth) && (forall n: nat :: n < t.elems && n !in t.leaves ==> t.w[n] == 0) && t.elems <= |t.w|
    ensures FreqTotal(t.w, t.elems) <= 65535 ==> Narrow(t, depth, 22)
    ensures FreqTotal(t.w, t.elems) <= 8195 ==> Narrow(t, depth, 18)
  {
    hide Whole, Heavy, LeastWeight, FreqTotal;
    LeastWeights();
    if FreqTotal(t.w, t.elems) <= 65535 {
      forall n: nat | InTree(t, n) ensures n < |t.w| && t.w[n] <= 65535 && n < |depth| && depth[n] <= 22 {
        UnderRoot(t, n);
        DepthBound(t, depth, n, 23);
      }
    }
    if FreqTotal(t.w, t.elems) <= 8195 {
      forall n: nat | InTree(t, n) ensures n < |t.w| && t.w[n] <= 65535 && n < |depth| && depth[n] <= 18 {
        UnderRoot(t, n);
        DepthBound(t, depth, n, 19);
      }
    }
  }

  lemma {:induction false} SameFreqTotal(freq: seq<nat>, freq': seq<nat>, m: nat)
    requires m <= |freq| && m <= |freq'| && forall n :: 0 <= n < m ==> freq[n] == freq'[n]
    ensures FreqTotal(freq, m) == FreqTotal(freq', m)
    decreases m
  {
    if m > 0 { SameFreqTotal(freq, freq', m - 1); }
  }
}
