/** Which two trees every merge takes, and in which order the nodes are listed: what fixes the tree of build_tree
    when weights are equal, and what the second half of the repair in gen_bitlen relies on. */
module HuffmanGreedy {
  import opened HuffmanTree
  import opened HuffmanHeap
  import opened HuffmanMerge

  /** Node n was a root when inner node p was made. */
  ghost predicate RootAt(t: Forest, n: nat, p: nat)
    requires Sized(t)
  {
    InTree(t, n) && n < p && n < |t.dad| && (n in t.live || t.dad[n] >= p)
  }

  /** Inner node k joined the first two roots of its time, and is one deeper than the deeper of them. */
  ghost predicate TookFirst(t: Forest, depth: seq<nat>, k: nat)
    requires Sized(t) && |depth| == |t.w| && k < |t.kids|
  {
    var a, b, p := t.kids[k].a, t.kids[k].b, t.elems + k;
    && a < p && b < p && depth[p] == Deeper(depth, a, b)
    && forall x: nat {:trigger RootAt(t, x, p)} :: RootAt(t, x, p) ==>
         (x != a ==> Smaller(t.w, depth, a, x)) && (x != a && x != b ==> Smaller(t.w, depth, b, x))
  }

  ghost predicate Greedy(t: Forest, depth: seq<nat>) {
    && Sized(t) && |depth| == |t.w|
    && (forall n :: n in t.leaves ==> depth[n] == 0)
    && (forall k: nat :: k < |t.kids| ==> TookFirst(t, depth, k))
  }

  /** In numbers: the two nodes that inner node number k joined come before every other root of that time, by
      weight and, among equal weights, by the height of their trees. */
  lemma {:induction false} JoinsFirstTwo(t: Forest, depth: seq<nat>, k: nat, x: nat)
    requires Good(t) && Greedy(t, depth) && k < |t.kids| && InTree(t, x) && x < t.elems + k && x < |t.dad|
    requires x in t.live || t.dad[x] >= t.elems + k
    ensures t.elems + k < |t.w| == |depth|
    ensures var a, b := t.kids[k].a, t.kids[k].b;
            && a < t.elems + k && b < t.elems + k && t.w[t.elems + k] == t.w[a] + t.w[b]
            && depth[t.elems + k] == (if depth[a] < depth[b] then depth[b] else depth[a]) + 1
            && (x != a ==> t.w[a] < t.w[x] || (t.w[a] == t.w[x] && depth[a] <= depth[x]))
            && (x != a && x != b ==> t.w[b] < t.w[x] || (t.w[b] == t.w[x] && depth[b] <= depth[x]))
  {
    hide Good;
    Sizes(t);
    KidsOf(t, t.elems + k);
    assert TookFirst(t, depth, k) && RootAt(t, x, t.elems + k);
  }

  /** The weights in a list do not rise. */
  ghost predicate Falling(order: seq<nat>, w: seq<nat>) {
    && (forall i :: 0 <= i < |order| ==> order[i] < |w|)
    && (forall i, j :: 0 <= i <= j < |order| ==> w[order[j]] <= w[order[i]])
  }

  /** No root is lighter than a listed node. */
  ghost predicate Under(order: seq<nat>, t: Forest)
    requires Sized(t)
  {
    forall i, x :: 0 <= i < |order| && x in t.live ==> order[i] < t.node && t.w[order[i]] <= t.w[x]
  }

  ghost predicate Queued(order: seq<nat>, t: Forest, depth: seq<nat>) {
    Greedy(t, depth) && Falling(order, t.w) && Under(order, t)
  }

  lemma {:induction false} QueueStart(t: Forest, depth: seq<nat>)
    requires Good(t) && t.node == t.elems && |depth| == |t.w| && forall n :: 0 <= n < |depth| ==> depth[n] == 0
    ensures Queued([], t, depth)
  {
  }

  /** Joining the first two roots and listing them keeps all that. */
  lemma {:induction false} QueueStep(order: seq<nat>, t: Forest, depth: seq<nat>, n: nat, m: nat)
    requires Good(t) && Queued(order, t, depth) && LightestPair(t, depth, n, m) && t.node < |t.dad|
    ensures n < t.node && m < t.node
    ensures Queued([m, n] + order, Join(t, n, m), depth[t.node := Deeper(depth, n, m)])
  {
    hide Good, TookFirst, Smaller;
    JoinGood(t, n, m);
    Sizes(t);
    var u, depth' := Join(t, n, m), depth[t.node := Deeper(depth, n, m)];
    assert Sized(u) by { Wide(u); }
    forall k: nat | k < |u.kids| ensures TookFirst(u, depth', k) {
      if k < |t.kids| { TookBefore(t, depth, n, m, k); } else { TookNow(t, depth, n, m); }
    }
    ListStep(order, t, depth, n, m);
  }

  lemma Wide(t: Forest)
    requires Good(t)
    ensures Sized(t)
  {
  }

  lemma {:induction false} TookBefore(t: Forest, depth: seq<nat>, n: nat, m: nat, k: nat)
    requires Good(t) && |depth| == |t.w| && n in t.live && m in t.live && t.node < |t.dad| && n < t.node && m < t.node
    requires k < |t.kids| && TookFirst(t, depth, k) && Sized(Join(t, n, m))
    ensures TookFirst(Join(t, n, m), depth[t.node := Deeper(depth, n, m)], k)
  {
    hide Good;
    Sizes(t);
    KidsOf(t, t.elems + k);
    var u, p := Join(t, n, m), t.elems + k;
    forall x: nat | RootAt(u, x, p) ensures Sized(t) && RootAt(t, x, p) { Wide(t); }
  }

  lemma {:induction false} TookNow(t: Forest, depth: seq<nat>, n: nat, m: nat)
    requires Good(t) && |depth| == |t.w| && LightestPair(t, depth, n, m) && t.node < |t.dad| && n < t.node && m < t.node
    requires Sized(Join(t, n, m))
    ensures TookFirst(Join(t, n, m), depth[t.node := Deeper(depth, n, m)], |t.kids|)
  {
    hide Good;
    Sizes(t);
    var u, depth' := Join(t, n, m), depth[t.node := Deeper(depth, n, m)];
    forall x: nat | RootAt(u, x, t.node)
      ensures (x != n ==> Smaller(u.w, depth', n, x)) && (x != n && x != m ==> Smaller(u.w, depth', m, x))
    {
      if x !in t.live { ParentOf(t, x); }
    }
  }

  lemma {:induction false} ListStep(order: seq<nat>, t: Forest, depth: seq<nat>, n: nat, m: nat)
    requires Good(t) && Falling(order, t.w) && Under(order, t) && t.node < |t.dad| && n < t.node && m < t.node
    requires |depth| == |t.w| && LightestPair(t, depth, n, m) && Sized(Join(t, n, m))
    ensures Falling([m, n] + order, Join(t, n, m).w) && Under([m, n] + order, Join(t, n, m))
  {
    hide Good;
    Sizes(t);
    var u, o := Join(t, n, m), [m, n] + order;
    forall i | 0 <= i < |o| ensures o[i] < t.node && t.w[o[i]] <= t.w[m] && (i > 0 ==> t.w[o[i]] <= t.w[n]) {
      if i >= 2 { assert o[i] == order[i - 2]; }
    }
    forall i, j | 0 <= i <= j < |o| ensures u.w[o[j]] <= u.w[o[i]] {
      if i >= 2 { assert o[i] == order[i - 2] && o[j] == order[j - 2]; }
    }
  }
}
