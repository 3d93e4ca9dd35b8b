/** A binary tree kept as an array of parents: leaves below `elems`, inner nodes from there on, every
    parent after its children.  Sums over the leaves are computed by taking the tree apart from the root. */
module HuffmanTree {
  import opened Arithmetic

  datatype Pair = Pair(a: nat, b: nat)

  /** Some trees over the leaves `leaves`; `node` is the next inner node to be made. */
  datatype Forest = Forest(elems: nat, node: nat, leaves: set<nat>, dad: seq<nat>, kids: seq<Pair>, w: seq<nat>, live: set<nat>)

  predicate InTree(t: Forest, n: nat) {
    n in t.leaves || t.elems <= n < t.node
  }

  ghost predicate Sized(t: Forest) {
    && t.elems <= t.node <= |t.dad| && |t.w| == |t.dad| && |t.kids| == t.node - t.elems
    && (forall n :: n in t.leaves ==> n < t.elems)
    && (forall n :: n in t.live ==> InTree(t, n))
  }

  ghost predicate KidGood(t: Forest, k: nat)
    requires Sized(t) && k < |t.kids|
  {
    var a, b, p := t.kids[k].a, t.kids[k].b, t.elems + k;
    && a != b && a < p && b < p && InTree(t, a) && InTree(t, b) && a !in t.live && b !in t.live
    && t.dad[a] == p && t.dad[b] == p && t.w[p] == t.w[a] + t.w[b]
  }

  ghost predicate ParentGood(t: Forest, n: nat)
    requires Sized(t) && InTree(t, n)
  {
    t.elems <= t.dad[n] < t.node && (n == t.kids[t.dad[n] - t.elems].a || n == t.kids[t.dad[n] - t.elems].b)
  }

  /** `live` are the roots; every other node is one of the two different children of its parent. */
  ghost predicate Good(t: Forest) {
    && Sized(t)
    && (forall k {:trigger KidGood(t, k)} :: 0 <= k < |t.kids| ==> KidGood(t, k))
    && (forall n: nat {:trigger ParentGood(t, n)} :: InTree(t, n) && n !in t.live ==> ParentGood(t, n))
  }

  lemma Sizes(t: Forest)
    requires Good(t)
    ensures t.elems <= t.node <= |t.dad| && |t.w| == |t.dad| && |t.kids| == t.node - t.elems
    ensures forall n :: n in t.leaves ==> n < t.elems
  {
  }

  lemma KidsOf(t: Forest, k: nat)
    requires Good(t) && t.elems <= k < t.node
    ensures |t.w| == |t.dad| >= t.node && |t.kids| == t.node - t.elems
    ensures var kid := t.kids[k - t.elems];
            && kid.a != kid.b && kid.a < k && kid.b < k && InTree(t, kid.a) && InTree(t, kid.b)
            && kid.a !in t.live && kid.b !in t.live
            && t.dad[kid.a] == k && t.dad[kid.b] == k && t.w[k] == t.w[kid.a] + t.w[kid.b]
  {
    assert KidGood(t, k - t.elems);
  }

  lemma ParentOf(t: Forest, n: nat)
    requires Good(t) && InTree(t, n) && n !in t.live
    ensures n < t.node <= |t.dad| && |t.kids| == t.node - t.elems && n < t.dad[n] < t.node && t.elems <= t.dad[n]
    ensures var kid := t.kids[t.dad[n] - t.elems]; n == kid.a || n == kid.b
  {
    assert ParentGood(t, n);
    assert KidGood(t, t.dad[n] - t.elems);
  }

  /** One tree. */
  ghost predicate Whole(t: Forest) {
    Good(t) && t.node > t.elems && t.live == {t.node - 1}
  }

  ghost function Depth(t: Forest, n: nat): (d: nat)
    requires Whole(t) && InTree(t, n)
    decreases t.node - n
  {
    if n == t.node - 1 then 0 else ParentOf(t, n); 1 + Depth(t, t.dad[n])
  }

  /** The nodes below m that are cut off when all inner nodes above k are taken away. */
  ghost function Cut(t: Forest, m: nat, k: int, g: nat -> int): int
    requires Whole(t) && m <= t.node
  {
    if m == 0 then 0
    else Cut(t, m - 1, k, g) + (if InTree(t, m - 1) && (m == t.node || t.dad[m - 1] > k) then g(m - 1) else 0)
  }

  lemma {:induction false} CutStep(t: Forest, m: nat, k: nat, g: nat -> int)
    requires Whole(t) && t.elems <= k < t.node && m <= k
    ensures var kid := t.kids[k - t.elems];
            Cut(t, m, k - 1, g) == Cut(t, m, k, g) + (if kid.a < m then g(kid.a) else 0) + (if kid.b < m then g(kid.b) else 0)
    decreases m
  {
    hide Good;
    KidsOf(t, k);
    if m > 0 {
      CutStep(t, m - 1, k, g);
      if InTree(t, m - 1) { ParentOf(t, m - 1); }
    }
  }

  /** What taking inner node k away adds to the sum. */
  ghost function Delta(t: Forest, k: nat, g: nat -> int): int
    requires t.elems <= k < t.node && |t.kids| == t.node - t.elems
  {
    g(t.kids[k - t.elems].a) + g(t.kids[k - t.elems].b) - g(k)
  }

  ghost function Deltas(t: Forest, k: nat, g: nat -> int): int
    requires t.elems <= k <= t.node && |t.kids| == t.node - t.elems
    decreases t.node - k
  {
    if k == t.node then 0 else Delta(t, k, g) + Deltas(t, k + 1, g)
  }

  lemma {:induction false} CutRoot(t: Forest, m: nat, g: nat -> int)
    requires Whole(t) && m < t.node
    ensures Cut(t, m, t.node - 1, g) == 0
    decreases m
  {
    hide Good;
    Sizes(t);
    if m > 0 {
      CutRoot(t, m - 1, g);
      if InTree(t, m - 1) { ParentOf(t, m - 1); }
    }
  }

  lemma {:induction false} TakeApart(t: Forest, k: nat, g: nat -> int)
    requires Whole(t) && t.elems <= k <= t.node
    ensures Cut(t, k, k - 1, g) == g(t.node - 1) + Deltas(t, k, g)
    decreases t.node - k
  {
    hide Good;
    Sizes(t);
    if k == t.node {
      CutRoot(t, k - 1, g);
    } else {
      TakeApart(t, k + 1, g);
      CutStep(t, k, k, g);
      KidsOf(t, k);
      if k < t.node - 1 { ParentOf(t, k); }
    }
  }

  ghost function LeafSum(t: Forest, m: nat, g: nat -> int): int {
    if m == 0 then 0 else LeafSum(t, m - 1, g) + (if m - 1 in t.leaves then g(m - 1) else 0)
  }

  lemma {:induction false} CutLeaves(t: Forest, m: nat, g: nat -> int)
    requires Whole(t) && m <= t.elems
    ensures Cut(t, m, t.elems - 1, g) == LeafSum(t, m, g)
    decreases m
  {
    hide Good;
    Sizes(t);
    if m > 0 {
      CutLeaves(t, m - 1, g);
      if InTree(t, m - 1) { ParentOf(t, m - 1); }
    }
  }

  /** The sum over the leaves is the value at the root and the changes at the inner nodes. */
  lemma LeavesFromRoot(t: Forest, g: nat -> int)
    requires Whole(t)
    ensures LeafSum(t, t.elems, g) == g(t.node - 1) + Deltas(t, t.elems, g)
  {
    hide Good;
    Sizes(t);
    TakeApart(t, t.elems, g);
    CutLeaves(t, t.elems, g);
  }

  // ---------- what the depths satisfy ----------

  ghost function InnerWeight(t: Forest, k: nat): nat
    requires t.elems <= k <= t.node <= |t.w|
    decreases t.node - k
  {
    if k == t.node then 0 else t.w[k] + InnerWeight(t, k + 1)
  }

  ghost function DepthOr0(t: Forest, n: nat): nat
    requires Whole(t)
  {
    if InTree(t, n) then Depth(t, n) else 0
  }

  ghost function Weighted(t: Forest, n: nat): int
    requires Whole(t)
  {
    if InTree(t, n) then t.w[n] * Depth(t, n) else 0
  }

  lemma KidDepth(t: Forest, k: nat)
    requires Whole(t) && t.elems <= k < t.node
    ensures var kid := t.kids[k - t.elems];
            InTree(t, kid.a) && InTree(t, kid.b) && kid.a < k && kid.b < k
            && Depth(t, kid.a) == Depth(t, k) + 1 && Depth(t, kid.b) == Depth(t, k) + 1
  {
    hide Good;
    KidsOf(t, k);
  }

  lemma {:induction false} WeightedDeltas(t: Forest, k: nat, g: nat -> int)
    requires Whole(t) && t.elems <= k <= t.node && forall n: nat :: g(n) == Weighted(t, n)
    ensures Deltas(t, k, g) == InnerWeight(t, k)
    decreases t.node - k
  {
    hide Good, Depth;
    Sizes(t);
    if k < t.node {
      WeightedDeltas(t, k + 1, g);
      KidDepth(t, k);
      KidsOf(t, k);
      var kid := t.kids[k - t.elems];
      var d := Depth(t, k);
      Distribute(t.w[kid.a], t.w[kid.b], d + 1);
    }
  }

  /** The weighted path length is the sum of the weights of the inner nodes. */
  lemma {:induction false} PathLength(t: Forest, g: nat -> int)
    requires Whole(t) && forall n: nat :: g(n) == Weighted(t, n)
    ensures LeafSum(t, t.elems, g) == InnerWeight(t, t.elems)
  {
    hide Good, Deltas, LeafSum, InnerWeight;
    Sizes(t);
    LeavesFromRoot(t, g);
    WeightedDeltas(t, t.elems, g);
  }

  // ---------- depths cut to a limit ----------

  /** The number of inner nodes from k on that lie at the limit or below it. */
  ghost function Deep(t: Forest, k: nat, max: nat): nat
    requires Whole(t) && t.elems <= k <= t.node
    decreases t.node - k
  {
    if k == t.node then 0 else (if Depth(t, k) >= max then 1 else 0) + Deep(t, k + 1, max)
  }

  ghost function Limited(t: Forest, n: nat, max: nat): (d: nat)
    requires Whole(t)
    ensures d <= max
  {
    if DepthOr0(t, n) > max then max else DepthOr0(t, n)
  }

  ghost function LimitedUnits(t: Forest, n: nat, max: nat): int
    requires Whole(t)
  {
    Pow2(max - Limited(t, n, max))
  }

  lemma {:induction false} LimitedDeltas(t: Forest, k: nat, max: nat, g: nat -> int)
    requires Whole(t) && t.elems <= k <= t.node && forall n: nat :: g(n) == LimitedUnits(t, n, max)
    ensures |t.kids| == t.node - t.elems && Deltas(t, k, g) == Deep(t, k, max)
    decreases t.node - k
  {
    hide Good, Depth;
    Sizes(t);
    if k < t.node {
      LimitedDeltas(t, k + 1, max, g);
      KidDepth(t, k);
      assert InTree(t, k);
      assert Pow2(0) == 1;
      var d := Depth(t, k);
      if d < max { assert Pow2(max - d) == 2 * Pow2(max - (d + 1)); }
    }
  }

  /** Cutting the depths to `max` makes the Kraft sum too large by the number of inner nodes that were cut. */
  lemma {:induction false} KraftExcess(t: Forest, max: nat, g: nat -> int)
    requires Whole(t) && forall n: nat :: g(n) == LimitedUnits(t, n, max)
    ensures LeafSum(t, t.elems, g) == Pow2(max) + Deep(t, t.elems, max)
  {
    hide Good, Deltas, LeafSum, Deep;
    Sizes(t);
    LeavesFromRoot(t, g);
    LimitedDeltas(t, t.elems, max, g);
    assert Depth(t, t.node - 1) == 0;
  }

  /** 1 for the nodes that were cut. */
  ghost function TooDeep(t: Forest, n: nat, max: nat): int
    requires Whole(t)
  {
    if DepthOr0(t, n) > max then 1 else 0
  }

  ghost function InnerSum(t: Forest, k: nat, g: nat -> int): int
    requires k <= t.node
    decreases t.node - k
  {
    if k == t.node then 0 else g(k) + InnerSum(t, k + 1, g)
  }

  lemma {:induction false} DeepDeltas(t: Forest, k: nat, max: nat, g: nat -> int)
    requires Whole(t) && t.elems <= k <= t.node && forall n: nat :: g(n) == TooDeep(t, n, max)
    ensures |t.kids| == t.node - t.elems && Deltas(t, k, g) + InnerSum(t, k, g) == 2 * Deep(t, k, max)
    decreases t.node - k
  {
    hide Good, Depth;
    Sizes(t);
    if k < t.node {
      DeepDeltas(t, k + 1, max, g);
      KidDepth(t, k);
      assert InTree(t, k);
    }
  }

  /** The number of nodes that were cut is twice that excess. */
  lemma {:induction false} CutNodes(t: Forest, max: nat, g: nat -> int)
    requires Whole(t) && forall n: nat :: g(n) == TooDeep(t, n, max)
    ensures g(t.node - 1) == 0
    ensures LeafSum(t, t.elems, g) + InnerSum(t, t.elems, g) == 2 * Deep(t, t.elems, max)
  {
    hide Good, Deltas, LeafSum, Deep;
    Sizes(t);
    LeavesFromRoot(t, g);
    DeepDeltas(t, t.elems, max, g);
    assert Depth(t, t.node - 1) == 0;
  }

  /** The units of the nodes that are not below the limit. */
  ghost function AboveUnits(t: Forest, n: nat, max: nat): int
    requires Whole(t)
  {
    if DepthOr0(t, n) <= max then Pow2(max - DepthOr0(t, n)) else 0
  }

  lemma {:induction false} AboveDeltas(t: Forest, k: nat, max: nat, g: nat -> int)
    requires Whole(t) && t.elems <= k <= t.node && forall n: nat :: g(n) == AboveUnits(t, n, max)
    ensures |t.kids| == t.node - t.elems && Deltas(t, k, g) <= 0
    ensures (exists i :: k <= i < t.node && Depth(t, i) == max) ==> Deltas(t, k, g) < 0
    decreases t.node - k
  {
    hide Good, Depth;
    Sizes(t);
    if k < t.node {
      AboveDeltas(t, k + 1, max, g);
      KidDepth(t, k);
      assert InTree(t, k);
      assert Pow2(0) == 1;
      var d := Depth(t, k);
      if d < max { assert Pow2(max - d) == 2 * Pow2(max - (d + 1)); }
    }
  }

  lemma {:induction false} SomeAtLimit(t: Forest, n: nat, max: nat) returns (i: nat)
    requires Whole(t) && t.elems <= n < t.node && Depth(t, n) >= max
    ensures t.elems <= i < t.node && Depth(t, i) == max
    decreases t.node - n
  {
    hide Good;
    if Depth(t, n) == max {
      i := n;
    } else {
      ParentOf(t, n);
      i := SomeAtLimit(t, t.dad[n], max);
    }
  }

  lemma {:induction false} DeepHasOne(t: Forest, k: nat, max: nat) returns (i: nat)
    requires Whole(t) && t.elems <= k <= t.node && Deep(t, k, max) > 0
    ensures k <= i < t.node && Depth(t, i) >= max
    decreases t.node - k
  {
    hide Good, Depth;
    if Depth(t, k) >= max { i := k; } else { i := DeepHasOne(t, k + 1, max); }
  }

  /** If anything was cut, the leaves above the limit do not fill the code space by themselves. */
  lemma {:induction false} AboveNotFull(t: Forest, max: nat, g: nat -> int)
    requires Whole(t) && forall n: nat :: g(n) == AboveUnits(t, n, max)
    requires Deep(t, t.elems, max) > 0
    ensures LeafSum(t, t.elems, g) < Pow2(max)
  {
    hide Good, Deltas, LeafSum, Deep;
    Sizes(t);
    LeavesFromRoot(t, g);
    var n := DeepHasOne(t, t.elems, max);
    var i := SomeAtLimit(t, n, max);
    AboveDeltas(t, t.elems, max, g);
    assert Depth(t, t.node - 1) == 0;
  }
}
