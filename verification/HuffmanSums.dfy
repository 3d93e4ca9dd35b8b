/** Sums over lists of nodes, and the same sums over the leaves in the order of their numbers. */
module HuffmanSums {
  import opened HuffmanTree
  import opened HuffmanMerge

  ghost function SumSeq(xs: seq<nat>, g: nat -> int): int {
    if xs == [] then 0 else SumSeq(xs[..|xs| - 1], g) + g(xs[|xs| - 1])
  }

  lemma {:induction false} SumAppend(xs: seq<nat>, ys: seq<nat>, g: nat -> int)
    ensures SumSeq(xs + ys, g) == SumSeq(xs, g) + SumSeq(ys, g)
    decreases |ys|
  {
    if ys == [] {
      assert xs + ys == xs;
    } else {
      var n := |ys| - 1;
      assert (xs + ys)[..|xs + ys| - 1] == xs + ys[..n];
      SumAppend(xs, ys[..n], g);
    }
  }

  lemma {:induction false} SumOne(x: nat, g: nat -> int)
    ensures SumSeq([x], g) == g(x)
  {
    assert [x][..0] == [];
  }

  lemma {:induction false} SumDrop(xs: seq<nat>, i: nat, g: nat -> int)
    requires i < |xs|
    ensures SumSeq(xs, g) == SumSeq(Drop(xs, i), g) + g(xs[i])
  {
    assert xs == xs[..i] + ([xs[i]] + xs[i + 1..]);
    SumAppend(xs[..i], [xs[i]] + xs[i + 1..], g);
    SumAppend([xs[i]], xs[i + 1..], g);
    SumAppend(xs[..i], xs[i + 1..], g);
    SumOne(xs[i], g);
  }

  /** The order of a list does not matter for its sum. */
  lemma {:induction false} PermSum(s: seq<nat>, r: seq<nat>, g: nat -> int)
    requires multiset(s) == multiset(r)
    ensures SumSeq(s, g) == SumSeq(r, g)
    decreases |s|
  {
    hide SumSeq;
    if s == [] {
      assert |multiset(r)| == 0;
    } else {
      var i := PermTail(s, r);
      PermSum(s[1..], Drop(r, i), g);
      SumDrop(r, i, g);
      SumDrop(s, 0, g);
      assert Drop(s, 0) == s[1..];
    }
  }

  lemma {:induction false} SumSame(xs: seq<nat>, f: nat -> int, g: nat -> int)
    requires forall i :: 0 <= i < |xs| ==> f(xs[i]) == g(xs[i])
    ensures SumSeq(xs, f) == SumSeq(xs, g)
    decreases |xs|
  {
    if xs != [] { SumSame(xs[..|xs| - 1], f, g); }
  }

  // ---------- the leaves in order ----------

  ghost function LeafList(leaves: set<nat>, m: nat): (r: seq<nat>)
    ensures forall i :: 0 <= i < |r| ==> r[i] < m && r[i] in leaves
  {
    if m == 0 then [] else if m - 1 in leaves then LeafList(leaves, m - 1) + [m - 1] else LeafList(leaves, m - 1)
  }

  ghost function Lower(leaves: set<nat>, m: nat): set<nat> {
    set x | x in leaves && x < m
  }

  lemma {:induction false} LeafListSet(leaves: set<nat>, m: nat)
    ensures multiset(LeafList(leaves, m)) == multiset(Lower(leaves, m))
    decreases m
  {
    if m == 0 {
      assert Lower(leaves, 0) == {};
    } else {
      LeafListSet(leaves, m - 1);
      if m - 1 in leaves {
        assert Lower(leaves, m) == Lower(leaves, m - 1) + {m - 1};
      } else {
        assert Lower(leaves, m) == Lower(leaves, m - 1);
      }
    }
  }

  /** The sum over the leaves below m, in the order of their numbers. */
  ghost function IndexSum(leaves: set<nat>, m: nat, g: nat -> int): int {
    if m == 0 then 0 else IndexSum(leaves, m - 1, g) + (if m - 1 in leaves then g(m - 1) else 0)
  }

  lemma {:induction false} LeafListSum(leaves: set<nat>, m: nat, g: nat -> int)
    ensures SumSeq(LeafList(leaves, m), g) == IndexSum(leaves, m, g)
    decreases m
  {
    if m > 0 {
      LeafListSum(leaves, m - 1, g);
      if m - 1 in leaves {
        SumAppend(LeafList(leaves, m - 1), [m - 1], g);
        SumOne(m - 1, g);
      }
    }
  }

  lemma {:induction false} TreeLeafSum(t: Forest, m: nat, g: nat -> int)
    ensures IndexSum(t.leaves, m, g) == LeafSum(t, m, g)
    decreases m
  {
    if m > 0 { TreeLeafSum(t, m - 1, g); }
  }

  ghost function UpTo(a: nat, b: nat): (r: seq<nat>)
    requires a <= b
    ensures forall i :: 0 <= i < |r| ==> a <= r[i] < b
  {
    if a == b then [] else UpTo(a, b - 1) + [b - 1]
  }

  lemma {:induction false} UpToSet(a: nat, b: nat)
    requires a <= b
    ensures multiset(UpTo(a, b)) == multiset(Between(a, b))
    decreases b
  {
    if a < b {
      UpToSet(a, b - 1);
      assert Between(a, b) == Between(a, b - 1) + {b - 1};
    } else {
      assert Between(a, b) == {};
    }
  }

  ghost function RangeSum(a: nat, b: nat, g: nat -> int): int
    requires a <= b
  {
    if a == b then 0 else RangeSum(a, b - 1, g) + g(b - 1)
  }

  lemma {:induction false} UpToSum(a: nat, b: nat, g: nat -> int)
    requires a <= b
    ensures SumSeq(UpTo(a, b), g) == RangeSum(a, b, g)
    decreases b
  {
    if a < b {
      UpToSum(a, b - 1, g);
      SumAppend(UpTo(a, b - 1), [b - 1], g);
      SumOne(b - 1, g);
    }
  }

  lemma {:induction false} InnerRange(t: Forest, k: nat, b: nat, g: nat -> int)
    requires k <= b <= t.node
    ensures InnerSum(t, k, g) == RangeSum(k, b, g) + InnerSum(t, b, g)
    decreases b
  {
    if k < b { InnerRange(t, k, b - 1, g); }
  }

  /** The sum over a list of all nodes but the root. */
  lemma {:induction false} NodesSum(order: seq<nat>, t: Forest, g: nat -> int)
    requires Whole(t) && multiset(order) == multiset(TreeNodes(t) - {t.node - 1})
    ensures SumSeq(order, g) == LeafSum(t, t.elems, g) + InnerSum(t, t.elems, g) - g(t.node - 1)
  {
    hide Good, SumSeq, InnerSum;
    Sizes(t);
    var leafs, inner := LeafList(t.leaves, t.elems), UpTo(t.elems, t.node - 1);
    LeafListSet(t.leaves, t.elems);
    assert Lower(t.leaves, t.elems) == t.leaves;
    UpToSet(t.elems, t.node - 1);
    assert TreeNodes(t) - {t.node - 1} == t.leaves + Between(t.elems, t.node - 1);
    Disjoint(t.leaves, Between(t.elems, t.node - 1));
    PermSum(order, leafs + inner, g);
    SumAppend(leafs, inner, g);
    LeafListSum(t.leaves, t.elems, g);
    TreeLeafSum(t, t.elems, g);
    UpToSum(t.elems, t.node - 1, g);
    InnerRange(t, t.elems, t.node - 1, g);
    LastInner(t, g);
  }

  lemma LastInner(t: Forest, g: nat -> int)
    requires t.node >= 1
    ensures InnerSum(t, t.node - 1, g) == g(t.node - 1)
  {
  }

  lemma Disjoint(a: set<nat>, b: set<nat>)
    requires a !! b
    ensures multiset(a + b) == multiset(a) + multiset(b)
  {
  }

  lemma {:induction false} NoInner(t: Forest, k: nat, g: nat -> int)
    requires k <= t.node && forall n: nat :: k <= n < t.node ==> g(n) == 0
    ensures InnerSum(t, k, g) == 0
    decreases t.node - k
  {
    if k < t.node { NoInner(t, k + 1, g); }
  }

  /** A quantity that only leaves have: its sum over the list is the sum over the leaves by number. */
  lemma {:induction false} LeavesOnly(order: seq<nat>, t: Forest, g: nat -> int)
    requires Whole(t) && multiset(order) == multiset(TreeNodes(t) - {t.node - 1}) && forall n: nat :: n >= t.elems ==> g(n) == 0
    ensures SumSeq(order, g) == IndexSum(t.leaves, t.elems, g)
  {
    hide Good, SumSeq, InnerSum, LeafSum;
    Sizes(t);
    NodesSum(order, t, g);
    NoInner(t, t.elems, g);
    TreeLeafSum(t, t.elems, g);
  }
}
