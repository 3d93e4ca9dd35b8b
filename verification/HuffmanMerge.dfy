/** The merging loop of gzip's build_tree on the heap array, with the tree it builds. */
module HuffmanMerge {
  import opened HuffmanOptimal
  import opened HuffmanTree
  import opened HuffmanHeap

  // ---------- joining two trees of the forest ----------

  function Join(t: Forest, n: nat, m: nat): Forest
    requires t.node < |t.dad| == |t.w| && n < |t.w| && m < |t.w|
  {
    t.(node := t.node + 1, dad := t.dad[n := t.node][m := t.node], kids := t.kids + [Pair(n, m)],
       w := t.w[t.node := t.w[n] + t.w[m]], live := t.live - {n, m} + {t.node})
  }

  /** n is the first root by weight and depth, and m is the first of the others. */
  ghost predicate LightestPair(t: Forest, depth: seq<nat>, n: nat, m: nat)
    requires Sized(t) && |depth| == |t.w|
  {
    && n in t.live && m in t.live && n != m
    && (forall x :: x in t.live ==> Smaller(t.w, depth, n, x))
    && (forall x :: x in t.live && x != n ==> Smaller(t.w, depth, m, x))
  }

  /** The depth of a new node. */
  function Deeper(depth: seq<nat>, n: nat, m: nat): nat
    requires n < |depth| && m < |depth|
  {
    (if depth[n] >= depth[m] then depth[n] else depth[m]) + 1
  }

  lemma {:induction false} JoinGood(t: Forest, n: nat, m: nat)
    requires Good(t) && n in t.live && m in t.live && n != m && t.node < |t.dad|
    ensures n < t.node && m < t.node && Good(Join(t, n, m))
  {
    hide KidGood, ParentGood;
    assert InTree(t, n) && InTree(t, m);
    var u := Join(t, n, m);
    assert Sized(u);
    forall k | 0 <= k < |u.kids| ensures KidGood(u, k) { JoinKid(t, n, m, k); }
    forall x: nat | InTree(u, x) && x !in u.live ensures ParentGood(u, x) { JoinParent(t, n, m, x); }
  }

  lemma {:induction false} JoinKid(t: Forest, n: nat, m: nat, k: nat)
    requires Good(t) && n in t.live && m in t.live && n != m && n < t.node && m < t.node < |t.dad|
    requires Sized(Join(t, n, m)) && k < |t.kids| + 1
    ensures KidGood(Join(t, n, m), k)
  {
    hide Good;
    Sizes(t);
    if k < |t.kids| {
      assert Join(t, n, m).kids[k] == t.kids[k];
      KidsOf(t, t.elems + k);
    } else {
      assert InTree(t, n) && InTree(t, m) by { LiveInTree(t, n); LiveInTree(t, m); }
    }
  }

  lemma LiveInTree(t: Forest, n: nat)
    requires Good(t) && n in t.live
    ensures InTree(t, n)
  {
  }

  lemma {:induction false} JoinParent(t: Forest, n: nat, m: nat, x: nat)
    requires Good(t) && n in t.live && m in t.live && n != m && n < t.node && m < t.node < |t.dad|
    requires Sized(Join(t, n, m)) && InTree(Join(t, n, m), x) && x !in Join(t, n, m).live
    ensures ParentGood(Join(t, n, m), x)
  {
    hide Good;
    Sizes(t);
    if x != n && x != m {
      assert InTree(t, x) && x !in t.live;
      ParentOf(t, x);
    }
  }

  ghost function Between(a: nat, b: nat): (s: set<nat>)
    ensures forall n :: n in s <==> a <= n < b
    decreases b
  {
    if b <= a then {} else Between(a, b - 1) + {b - 1}
  }

  ghost function TreeNodes(t: Forest): set<nat> {
    t.leaves + Between(t.elems, t.node)
  }

  // ---------- lists of nodes ----------

  function WeightsOf(s: seq<nat>, w: seq<nat>): multiset<nat>
    requires forall i :: 0 <= i < |s| ==> s[i] < |w|
  {
    if s == [] then multiset{} else multiset{w[s[0]]} + WeightsOf(s[1..], w)
  }

  function Drop(s: seq<nat>, i: nat): (r: seq<nat>)
    requires i < |s|
    ensures |r| == |s| - 1 && forall j :: 0 <= j < |r| ==> r[j] == (if j < i then s[j] else s[j + 1])
  {
    s[..i] + s[i + 1..]
  }

  lemma DropPerm(s: seq<nat>, i: nat)
    requires i < |s|
    ensures multiset(s) == multiset(Drop(s, i)) + multiset{s[i]}
  {
    assert s == s[..i] + [s[i]] + s[i + 1..];
  }

  lemma {:induction false} DropWeights(s: seq<nat>, i: nat, w: seq<nat>)
    requires i < |s| && forall j :: 0 <= j < |s| ==> s[j] < |w|
    ensures WeightsOf(s, w) == WeightsOf(Drop(s, i), w) + multiset{w[s[i]]}
    decreases |s|
  {
    if i > 0 {
      assert Drop(s, i)[1..] == Drop(s[1..], i - 1);
      DropWeights(s[1..], i - 1, w);
    } else {
      assert Drop(s, i) == s[1..];
    }
  }

  ghost predicate Below(s: seq<nat>, bound: nat) {
    forall j :: 0 <= j < |s| ==> s[j] < bound
  }

  lemma PermTail(s: seq<nat>, r: seq<nat>) returns (i: nat)
    requires multiset(s) == multiset(r) && s != []
    ensures i < |r| && r[i] == s[0] && multiset(s[1..]) == multiset(Drop(r, i))
  {
    assert s[0] in multiset(r);
    i :| 0 <= i < |r| && r[i] == s[0];
    DropPerm(s, 0);
    DropPerm(r, i);
    assert Drop(s, 0) == s[1..];
    assert multiset(s[1..]) == multiset(s) - multiset{s[0]};
    assert multiset(Drop(r, i)) == multiset(r) - multiset{r[i]};
  }

  /** The weights depend on the nodes only, not on their order. */
  lemma {:induction false} PermWeights(s: seq<nat>, r: seq<nat>, w: seq<nat>)
    requires multiset(s) == multiset(r) && Below(s, |w|) && Below(r, |w|)
    ensures WeightsOf(s, w) == WeightsOf(r, w)
    decreases |s|
  {
    if s == [] {
      assert |multiset(r)| == 0;
    } else {
      var i := PermTail(s, r);
      PermWeights(s[1..], Drop(r, i), w);
      DropWeights(r, i, w);
    }
  }

  lemma {:induction false} SameWeights(s: seq<nat>, w: seq<nat>, w': seq<nat>)
    requires forall j :: 0 <= j < |s| ==> s[j] < |w| && s[j] < |w'| && w[s[j]] == w'[s[j]]
    ensures WeightsOf(s, w) == WeightsOf(s, w')
    decreases |s|
  {
    if s != [] { SameWeights(s[1..], w, w'); }
  }

  lemma {:induction false} WeightOf(s: seq<nat>, w: seq<nat>, y: nat)
    requires (forall j :: 0 <= j < |s| ==> s[j] < |w|) && y in WeightsOf(s, w)
    ensures exists j :: 0 <= j < |s| && w[s[j]] == y
    decreases |s|
  {
    if w[s[0]] != y {
      WeightOf(s[1..], w, y);
      var j :| 0 <= j < |s[1..]| && w[s[1..][j]] == y;
      assert w[s[j + 1]] == y;
    }
  }

  /** No node comes before its parent. */
  ghost predicate ParentsFirst(order: seq<nat>, dad: seq<nat>) {
    forall i, j :: 0 <= i <= j < |order| ==> order[i] < |dad| && dad[order[i]] != order[j]
  }

  lemma MiddlePerm(h: seq<nat>, h': seq<nat>, len: nat)
    requires Moved(h, h', 1, len) && len < |h|
    ensures multiset(h[1..len + 1]) == multiset(h'[1..len + 1])
    ensures h[len + 1..] == h'[len + 1..]
  {
    assert h == [h[0]] + h[1..len + 1] + h[len + 1..];
    assert h' == [h'[0]] + h'[1..len + 1] + h'[len + 1..];
    assert h[len + 1..] == h'[len + 1..];
    assert multiset(h[1..len + 1]) == multiset(h) - multiset([h[0]]) - multiset(h[len + 1..]);
    assert multiset(h'[1..len + 1]) == multiset(h') - multiset([h[0]]) - multiset(h[len + 1..]);
  }

  // ---------- the state of the loop ----------

  /** heap[1..len] are the roots, in heap order; heap[max..] are the other nodes, parents first. */
  ghost predicate Building(h: seq<nat>, len: nat, max: nat, t: Forest, depth: seq<nat>) {
    && Good(t) && |depth| == |t.w| && Nodes(h, len, t.w, depth) && HeapFrom(h, len, t.w, depth, 1)
    && len < max <= |h|
    && multiset(h[1..len + 1]) == multiset(t.live)
    && multiset(h[max..]) == multiset(TreeNodes(t) - t.live)
    && ParentsFirst(h[max..], t.dad)
    && |h| - max == 2 * (t.node - t.elems) && len + (t.node - t.elems) == |t.leaves|
    && |h| >= 2 * |t.leaves| + 1 && |t.w| >= t.elems + |t.leaves| && len >= 1
  }

  ghost predicate TotalDefined(h: seq<nat>, len: nat, t: Forest) {
    t.elems <= t.node <= |t.w| && len < |h| && (forall i :: 1 <= i <= len ==> h[i] < |t.w|)
  }

  lemma BuildingTotal(h: seq<nat>, len: nat, max: nat, t: Forest, depth: seq<nat>)
    requires Building(h, len, max, t, depth)
    ensures TotalDefined(h, len, t) && len == |t.live| && |t.w| == |t.dad| && t.elems <= t.node <= |t.w| && |t.leaves| >= len
  {
    hide KidGood, ParentGood, HeapFrom;
    assert |multiset(h[1..len + 1])| == len;
  }

  /** The weights of the inner nodes made so far, and what merging the rest will add. */
  ghost function Total(h: seq<nat>, len: nat, t: Forest): nat
    requires TotalDefined(h, len, t)
  {
    InnerWeight(t, t.elems) + MergeCost(WeightsOf(h[1..len + 1], t.w))
  }

  /** The root has left the heap of `len` elements. */
  ghost predicate Removed(h0: seq<nat>, h1: seq<nat>, len: nat) {
    && 2 <= len < |h0| == |h1|
    && multiset(h1[1..len]) == multiset(h0[1..len + 1]) - multiset{h0[1]} && h1[len..] == h0[len..]
  }

  /** Taking the root off the heap: the last element takes its place and is moved down. */
  method RemoveTop(heap: array<nat>, len: nat, freq: seq<nat>, depth: seq<nat>) returns (top: nat)
    requires Nodes(heap[..], len, freq, depth) && HeapFrom(heap[..], len, freq, depth, 1) && len >= 2
    modifies heap
    ensures top == old(heap[..])[1] && Nodes(heap[..], len - 1, freq, depth) && HeapFrom(heap[..], len - 1, freq, depth, 1)
    ensures Removed(old(heap[..]), heap[..], len)
  {
    hide Father, Smaller, HeapFrom, Moved;
    ghost var h0 := heap[..];
    top := heap[1];
    heap[1] := heap[len];
    ghost var h1 := heap[..];
    SmallerHeap(h0, h1, len, freq, depth);
    PqDownHeap(heap, len - 1, 1, freq, depth);
    MiddlePerm(h1, heap[..], len - 1);
    LastToFront(h0, h1, len);
  }

  lemma SmallerHeap(h0: seq<nat>, h1: seq<nat>, len: nat, freq: seq<nat>, depth: seq<nat>)
    requires Nodes(h0, len, freq, depth) && HeapFrom(h0, len, freq, depth, 1) && len >= 2 && h1 == h0[1 := h0[len]]
    ensures Nodes(h1, len - 1, freq, depth) && HeapFrom(h1, len - 1, freq, depth, 2)
  {
    var l1 := len - 1;
    forall i | 2 <= i <= l1 ensures Father(h1, l1, freq, depth, i) {
      assert Father(h0, len, freq, depth, i);
    }
  }

  lemma LastToFront(h0: seq<nat>, h1: seq<nat>, len: nat)
    requires 2 <= len < |h0| && h1 == h0[1 := h0[len]]
    ensures multiset(h1[1..len]) == multiset(h0[1..len + 1]) - multiset{h0[1]}
  {
    assert h0[1..len + 1] == [h0[1]] + h0[2..len] + [h0[len]];
    assert h1[1..len] == [h0[len]] + h0[2..len];
  }

  /** Putting a new node in place of the root. */
  method ReplaceTop(heap: array<nat>, len: nat, node: nat, freq: seq<nat>, depth: seq<nat>, ghost freq0: seq<nat>, ghost depth0: seq<nat>)
    requires Nodes(heap[..], len, freq0, depth0) && HeapFrom(heap[..], len, freq0, depth0, 1) && len >= 1
    requires node < |freq| == |freq0| == |depth| && freq == freq0[node := freq[node]] && depth == depth0[node := depth[node]]
    requires forall i :: 1 <= i <= len ==> heap[i] != node
    modifies heap
    ensures Nodes(heap[..], len, freq, depth) && HeapFrom(heap[..], len, freq, depth, 1)
    ensures multiset(heap[..][1..len + 1]) == multiset(old(heap[..])[1..len + 1]) - multiset{old(heap[..])[1]} + multiset{node}
    ensures heap[..][len + 1..] == old(heap[..])[len + 1..]
  {
    hide Father, Smaller, HeapFrom, Moved;
    ghost var h0 := heap[..];
    heap[1] := node;
    ghost var h1 := heap[..];
    NewTop(h0, h1, len, node, freq0, depth0, freq, depth);
    PqDownHeap(heap, len, 1, freq, depth);
    MiddlePerm(h1, heap[..], len);
    assert h0[1..len + 1] == [h0[1]] + h0[2..len + 1];
    assert h1[1..len + 1] == [node] + h0[2..len + 1];
  }

  lemma NewTop(h0: seq<nat>, h1: seq<nat>, len: nat, node: nat, freq0: seq<nat>, depth0: seq<nat>, freq: seq<nat>, depth: seq<nat>)
    requires Nodes(h0, len, freq0, depth0) && HeapFrom(h0, len, freq0, depth0, 1) && len >= 1 && h1 == h0[1 := node]
    requires node < |freq| == |freq0| == |depth| && freq == freq0[node := freq[node]] && depth == depth0[node := depth[node]]
    requires forall i :: 1 <= i <= len ==> h0[i] != node
    ensures Nodes(h1, len, freq, depth) && HeapFrom(h1, len, freq, depth, 2)
  {
    forall i | 2 <= i <= len ensures Father(h1, len, freq, depth, i) {
      assert Father(h0, len, freq0, depth0, i);
    }
  }

  lemma {:induction false} AddWeight(s: seq<nat>, r: seq<nat>, x: nat, w: seq<nat>)
    requires Below(s, |w|) && Below(r, |w|) && x < |w| && multiset(r) == multiset(s) + multiset{x}
    ensures WeightsOf(r, w) == WeightsOf(s, w) + multiset{w[x]}
  {
    var r' := [x] + s;
    assert r'[1..] == s;
    assert multiset(r') == multiset(r);
    PermWeights(r', r, w);
  }

  /** Taking the two lightest nodes out and putting one with their weight in is one step of MergeCost. */
  lemma {:induction false} OneMerge(s: seq<nat>, s1: seq<nat>, s2: seq<nat>, n: nat, m: nat, node: nat, w: seq<nat>, w': seq<nat>)
    requires Below(s, |w|) && Below(s1, |w|) && Below(s2, |w|) && n < |w| && m < |w| && node < |w|
    requires multiset(s) == multiset(s1) + multiset{n} && m in s1
    requires multiset(s2) == multiset(s1) - multiset{m} + multiset{node} && node !in s1
    requires w' == w[node := w[n] + w[m]]
    requires (forall j :: 0 <= j < |s| ==> w[n] <= w[s[j]]) && (forall j :: 0 <= j < |s1| ==> w[m] <= w[s1[j]])
    ensures MergeCost(WeightsOf(s, w)) == w[n] + w[m] + MergeCost(WeightsOf(s2, w'))
  {
    hide MergeCost, WeightsOf;
    var rest := MergedWeights(s, s1, s2, n, m, node, w, w');
    forall y | y in WeightsOf(s, w) ensures w[n] <= y { WeightOf(s, w, y); }
    forall y | y in WeightsOf(s1, w) ensures w[m] <= y { WeightOf(s1, w, y); }
    AbstractMerge(WeightsOf(s, w), WeightsOf(s1, w), rest, WeightsOf(s2, w'), w[n], w[m]);
  }

  lemma {:induction false} MergedWeights(s: seq<nat>, s1: seq<nat>, s2: seq<nat>, n: nat, m: nat, node: nat, w: seq<nat>, w': seq<nat>)
    returns (rest: multiset<nat>)
    requires Below(s, |w|) && Below(s1, |w|) && Below(s2, |w|) && n < |w| && m < |w| && node < |w|
    requires multiset(s) == multiset(s1) + multiset{n} && m in s1
    requires multiset(s2) == multiset(s1) - multiset{m} + multiset{node} && node !in s1
    requires w' == w[node := w[n] + w[m]]
    ensures WeightsOf(s, w) == WeightsOf(s1, w) + multiset{w[n]}
    ensures WeightsOf(s1, w) == rest + multiset{w[m]}
    ensures WeightsOf(s2, w') == rest + multiset{w[n] + w[m]}
  {
    hide WeightsOf;
    var i :| 0 <= i < |s1| && s1[i] == m;
    var left := Drop(s1, i);
    DropPerm(s1, i);
    DropWeights(s1, i, w);
    AddWeight(s1, s, n, w);
    NewWeight(left, s2, node, w, w');
    rest := WeightsOf(left, w);
  }

  lemma {:induction false} NewWeight(left: seq<nat>, s2: seq<nat>, node: nat, w: seq<nat>, w': seq<nat>)
    requires Below(left, |w|) && Below(s2, |w|) && node < |w| == |w'| && w' == w[node := w'[node]] && node !in left
    requires multiset(s2) == multiset(left) + multiset{node}
    ensures WeightsOf(s2, w') == WeightsOf(left, w) + multiset{w'[node]}
  {
    hide WeightsOf;
    AddWeight(left, s2, node, w');
    SameWeights(left, w, w');
  }

  lemma AbstractMerge(m: multiset<nat>, m1: multiset<nat>, rest: multiset<nat>, m2: multiset<nat>, a: nat, b: nat)
    requires m == m1 + multiset{a} && m1 == rest + multiset{b} && m2 == rest + multiset{a + b}
    requires (forall y :: y in m ==> a <= y) && (forall y :: y in m1 ==> b <= y)
    ensures MergeCost(m) == a + b + MergeCost(m2)
  {
    hide MergeCost;
    assert m - multiset{a} == m1;
    assert m1 - multiset{b} == rest;
    MergeStep(m, a, b);
  }

  lemma {:induction false} InnerAppend(t: Forest, u: Forest, k: nat)
    requires t.elems == u.elems <= k <= t.node && u.node == t.node + 1 && |u.w| == |t.w| > t.node
    requires forall i :: 0 <= i < t.node ==> u.w[i] == t.w[i]
    ensures InnerWeight(u, k) == InnerWeight(t, k) + u.w[t.node]
    decreases t.node - k
  {
    if k < t.node { InnerAppend(t, u, k + 1); }
  }

  lemma SetPlusPair(a: set<nat>, b: set<nat>, n: nat, m: nat)
    requires n != m && n !in a && m !in a && b == a + {n, m}
    ensures multiset(b) == multiset(a) + multiset{n} + multiset{m}
  {
  }

  lemma LivePair(s: seq<nat>, live: set<nat>, s1: seq<nat>, n: nat, m: nat)
    requires multiset(s) == multiset(live) && n in s && multiset(s1) == multiset(s) - multiset{n} && m in s1
    ensures n in live && m in live && n != m
    ensures multiset(s) == multiset(s1) + multiset{n}
  {
    assert n in multiset(s);
    assert m in multiset(s1);
    assert multiset(live)[n] == 1;
  }

  lemma RoomForNode(h: seq<nat>, len: nat, max: nat, t: Forest, depth: seq<nat>)
    requires Building(h, len, max, t, depth) && len >= 2
    ensures t.node < |t.w| == |t.dad| && 2 <= len < max - 2 && Below(h[1..len + 1], |t.w|)
    ensures forall i :: 1 <= i <= len ==> h[i] < t.node
  {
    hide KidGood, ParentGood, HeapFrom;
    forall i | 1 <= i <= len ensures h[i] < t.node {
      assert h[1..len + 1][i - 1] in multiset(t.live);
      assert InTree(t, h[i]);
    }
  }

  /** The new list of finished nodes: the two children in front of the others. */
  lemma {:induction false} OrderStep(order: seq<nat>, t: Forest, n: nat, m: nat)
    requires Good(t) && n in t.live && m in t.live && n != m && t.node < |t.dad|
    requires multiset(order) == multiset(TreeNodes(t) - t.live) && ParentsFirst(order, t.dad)
    ensures n < t.node && m < t.node
    ensures var u := Join(t, n, m);
            multiset([m, n] + order) == multiset(TreeNodes(u) - u.live) && ParentsFirst([m, n] + order, u.dad)
  {
    hide Good, ParentsFirst;
    Sizes(t);
    LiveBelow(t, n);
    LiveBelow(t, m);
    var u := Join(t, n, m);
    var done := TreeNodes(t) - t.live;
    assert TreeNodes(u) - u.live == done + {n, m};
    SetPlusPair(done, done + {n, m}, n, m);
    assert multiset([m, n] + order) == multiset{m, n} + multiset(order);
    forall j | 0 <= j < |order| ensures order[j] < t.node && order[j] != n && order[j] != m {
      assert order[j] in multiset(done);
      DoneBelow(t, order[j]);
    }
    ParentsStep(order, t.dad, n, m, t.node);
  }

  lemma LiveBelow(t: Forest, n: nat)
    requires Good(t) && n in t.live
    ensures n < t.node && |t.w| == |t.dad| >= t.node && (n in t.leaves || t.elems <= n < t.node)
    ensures forall x :: x in t.live ==> x < t.node
  {
    hide KidGood, ParentGood;
    assert InTree(t, n);
  }

  lemma DoneBelow(t: Forest, n: nat)
    requires Good(t) && n in TreeNodes(t)
    ensures n < t.node
  {
    hide KidGood, ParentGood;
  }

  lemma ParentsStep(order: seq<nat>, dad: seq<nat>, n: nat, m: nat, node: nat)
    requires ParentsFirst(order, dad) && n < node && m < node < |dad|
    requires forall j :: 0 <= j < |order| ==> order[j] < node && order[j] != n && order[j] != m
    requires n != m
    ensures ParentsFirst([m, n] + order, dad[n := node][m := node])
  {
    var o := [m, n] + order;
    forall i, j | 0 <= i <= j < |o| ensures o[i] < |dad| && dad[n := node][m := node][o[i]] != o[j] {
      if j >= 2 { assert o[j] == order[j - 2]; }
      if i >= 2 { assert o[i] == order[i - 2]; }
    }
  }

  /** The moves of one round on the arrays: the smallest two nodes n and m leave the heap for the list, and the
      new node comes in.  `s1` is the heap after the first has left. */
  ghost predicate Combined(h0: seq<nat>, h3: seq<nat>, s1: seq<nat>, len: nat, max: nat, freq: seq<nat>, depth: seq<nat>,
                           depth': seq<nat>, node: nat, n: nat, m: nat)
  {
    && 2 <= len < max - 2 && max <= |h0| == |h3| && n < node && m < node < |freq| == |depth'|
    && Second(h0, s1, len, freq, depth, node, n, m)
    && Nodes(h3, len - 1, freq[node := freq[n] + freq[m]], depth')
    && HeapFrom(h3, len - 1, freq[node := freq[n] + freq[m]], depth', 1)
    && multiset(h3[1..len]) == multiset(s1) - multiset{m} + multiset{node}
    && h3[max - 2..] == [m, n] + h0[max..]
  }

  /** n is the smallest in the heap, and m is the smallest of the others. */
  ghost predicate Second(h0: seq<nat>, s1: seq<nat>, len: nat, freq: seq<nat>, depth: seq<nat>, node: nat, n: nat, m: nat) {
    && 2 <= len < |h0| && node < |freq| == |depth| && n < node && m < node && Below(s1, node)
    && n == h0[1] && multiset(s1) == multiset(h0[1..len + 1]) - multiset{n} && m in s1
    && (forall i :: 1 <= i <= len ==> h0[i] < |freq| && Smaller(freq, depth, n, h0[i]))
    && (forall j :: 0 <= j < |s1| ==> Smaller(freq, depth, m, s1[j]))
  }

  method CombineTop(heap: array<nat>, len: nat, max: nat, freq: seq<nat>, depth: seq<nat>, node: nat)
    returns (n: nat, m: nat, freq': seq<nat>, depth': seq<nat>, ghost s1: seq<nat>)
    requires Nodes(heap[..], len, freq, depth) && HeapFrom(heap[..], len, freq, depth, 1) && 2 <= len < max - 2 && max <= heap.Length
    requires node < |freq| && Below(heap[..][1..len + 1], node)
    modifies heap
    ensures n < node && m < node && freq' == freq[node := freq[n] + freq[m]]
    ensures |depth| == |freq| && depth' == depth[node := Deeper(depth, n, m)]
    ensures Combined(old(heap[..]), heap[..], s1, len, max, freq, depth, depth', node, n, m)
  {
    hide HeapFrom, Nodes, Below, Second, Combined, Removed, Pushed;
    ghost var h0 := heap[..];
    NodesSize(h0, len, freq, depth);
    n := RemoveTop(heap, len, freq, depth);
    ghost var h1 := heap[..];
    s1 := h1[1..len];
    m := heap[1];
    SecondSmallest(h0, h1, len, freq, depth, node);
    freq' := freq[node := freq[n] + freq[m]];
    depth' := depth[node := Deeper(depth, n, m)];
    PushPair(heap, len - 1, max, n, m, node, freq', depth', freq, depth);
    Combining(h0, h1, heap[..], len, max, freq, depth, depth', node);
  }

  lemma NodesSize(h: seq<nat>, len: nat, freq: seq<nat>, depth: seq<nat>)
    requires Nodes(h, len, freq, depth)
    ensures |depth| == |freq|
  {
  }

  lemma Combining(h0: seq<nat>, h1: seq<nat>, h3: seq<nat>, len: nat, max: nat, freq: seq<nat>, depth: seq<nat>, depth': seq<nat>,
                  node: nat)
    requires Removed(h0, h1, len) && Pushed(h1, h3, len - 1, max, h0[1], h1[1], node) && 2 <= len < max - 2 && node < |freq| == |depth'|
    requires h0[1] < node && h1[1] < node && Second(h0, h1[1..len], len, freq, depth, node, h0[1], h1[1])
    requires Nodes(h3, len - 1, freq[node := freq[h0[1]] + freq[h1[1]]], depth')
    requires HeapFrom(h3, len - 1, freq[node := freq[h0[1]] + freq[h1[1]]], depth', 1)
    ensures Combined(h0, h3, h1[1..len], len, max, freq, depth, depth', node, h0[1], h1[1])
  {
    hide HeapFrom, Nodes, Second;
    assert h1[max..] == h1[len..][max - len..] == h0[max..];
  }

  lemma {:induction false} SecondSmallest(h0: seq<nat>, h1: seq<nat>, len: nat, freq: seq<nat>, depth: seq<nat>, node: nat)
    requires Removed(h0, h1, len) && Below(h0[1..len + 1], node)
    requires Nodes(h0, len, freq, depth) && HeapFrom(h0, len, freq, depth, 1) && node < |freq|
    requires Nodes(h1, len - 1, freq, depth) && HeapFrom(h1, len - 1, freq, depth, 1)
    ensures h0[1] < node && h1[1] < node && Below(h1[1..len], node) && Second(h0, h1[1..len], len, freq, depth, node, h0[1], h1[1])
  {
    hide HeapFrom, Smaller;
    assert h0[1] == h0[1..len + 1][0] && h1[1] == h1[1..len][0];
    RestBelow(h0[1..len + 1], h1[1..len], h0[1], node);
    TopSmallest(h0, len, freq, depth);
    TopSmallest(h1, len - 1, freq, depth);
  }

  /** m and n are on the list, and the new node has taken the place of the root. */
  ghost predicate Pushed(h1: seq<nat>, h3: seq<nat>, len: nat, max: nat, n: nat, m: nat, node: nat) {
    && 1 <= len < max - 2 && max <= |h1| == |h3| && h3[max - 2..] == [m, n] + h1[max..]
    && multiset(h3[1..len + 1]) == multiset(h1[1..len + 1]) - multiset{h1[1]} + multiset{node}
  }

  method PushPair(heap: array<nat>, len: nat, max: nat, n: nat, m: nat, node: nat, freq: seq<nat>, depth: seq<nat>,
                  ghost freq0: seq<nat>, ghost depth0: seq<nat>)
    requires Nodes(heap[..], len, freq0, depth0) && HeapFrom(heap[..], len, freq0, depth0, 1) && 1 <= len < max - 2 && max <= heap.Length
    requires node < |freq| == |freq0| == |depth| && freq == freq0[node := freq[node]] && depth == depth0[node := depth[node]]
    requires Below(heap[..][1..len + 1], node)
    modifies heap
    ensures Nodes(heap[..], len, freq, depth) && HeapFrom(heap[..], len, freq, depth, 1)
    ensures Pushed(old(heap[..]), heap[..], len, max, n, m, node)
  {
    hide HeapFrom, Nodes;
    ghost var h1 := heap[..];
    heap[max - 1] := n;
    heap[max - 2] := m;
    ghost var h2 := heap[..];
    ListHas(h1, h2, len, max, n, m);
    HeapSame(h1, h2, len, freq0, depth0);
    forall i | 1 <= i <= len ensures h2[i] != node { assert h2[i] == h1[1..len + 1][i - 1]; }
    ReplaceTop(heap, len, node, freq, depth, freq0, depth0);
    assert heap[..][max - 2..] == heap[..][len + 1..][max - len - 3..];
  }

  lemma ListHas(h1: seq<nat>, h2: seq<nat>, len: nat, max: nat, n: nat, m: nat)
    requires 1 <= len < max - 2 && max <= |h1| && h2 == h1[max - 1 := n][max - 2 := m]
    ensures h2[1..len + 1] == h1[1..len + 1] && h2[max - 2..] == h2[len + 1..][max - len - 3..] == [m, n] + h1[max..]
  {
  }

  lemma RestBelow(s0: seq<nat>, s1: seq<nat>, n: nat, node: nat)
    requires Below(s0, node) && n in s0 && multiset(s1) == multiset(s0) - multiset{n}
    ensures Below(s1, node)
  {
    forall j | 0 <= j < |s1| ensures s1[j] < node {
      assert s1[j] in multiset(s1);
      assert s1[j] in multiset(s0);
      assert s1[j] in s0;
    }
  }

  /** One round of the loop that combines the least two frequent nodes. */
  method MergeOnce(heap: array<nat>, len: nat, max: nat, freq: seq<nat>, dl: seq<nat>, depth: seq<nat>, node: nat, ghost t: Forest)
    returns (freq': seq<nat>, dl': seq<nat>, depth': seq<nat>, ghost u: Forest, n: nat, m: nat)
    requires Building(heap[..], len, max, t, depth) && len >= 2
    requires freq == t.w && dl == t.dad && node == t.node
    modifies heap
    ensures Building(heap[..], len - 1, max - 2, u, depth') && freq' == u.w && dl' == u.dad && u.node == node + 1
    ensures u.elems == t.elems && u.leaves == t.leaves && max >= 2
    ensures Good(t) && t.node < |t.dad| == |depth| && n < t.node && m < t.node
    ensures |t.w| == |depth| && LightestPair(t, depth, n, m) && max <= heap.Length
    ensures heap[..][max - 2..] == [m, n] + old(heap[..])[max..]
    ensures u == Join(t, n, m) && depth' == depth[t.node := Deeper(depth, n, m)]
    ensures TotalDefined(old(heap[..]), len, t) && TotalDefined(heap[..], len - 1, u)
    ensures Total(heap[..], len - 1, u) == Total(old(heap[..]), len, t)
    ensures |dl'| == |dl| && |freq'| == |freq| && (forall n :: 0 <= n < t.elems ==> freq'[n] == freq[n])
    ensures forall n :: 0 <= n < t.elems && n !in t.leaves ==> dl'[n] == dl[n]
  {
    hide Building, HeapFrom, Total, TotalDefined, Nodes, Below, Combined, Good, Deeper, LightestPair;
    ghost var h0 := heap[..];
    BuildingTotal(h0, len, max, t, depth);
    RoomForNode(h0, len, max, t, depth);
    BuildingHeap(h0, len, max, t, depth);
    ghost var s1;
    n, m, freq', depth', s1 := CombineTop(heap, len, max, freq, depth, node);
    dl' := dl[n := node][m := node];
    u := Join(t, n, m);
    Merged(h0, heap[..], s1, len, max, t, depth, n, m, depth');
  }

  lemma BuildingHeap(h: seq<nat>, len: nat, max: nat, t: Forest, depth: seq<nat>)
    requires Building(h, len, max, t, depth) && len >= 2
    ensures Nodes(h, len, t.w, depth) && HeapFrom(h, len, t.w, depth, 1) && max <= |h| && Below(h[1..len + 1], t.node)
  {
    RoomForNode(h, len, max, t, depth);
  }

  /** After those moves the arrays hold the joined forest, and the total is the same. */
  lemma {:induction false} Merged(h0: seq<nat>, h3: seq<nat>, s1: seq<nat>, len: nat, max: nat, t: Forest, depth: seq<nat>,
                                  n: nat, m: nat, depth': seq<nat>)
    requires Building(h0, len, max, t, depth) && t.node < |t.w| == |t.dad| && n < t.node && m < t.node
    requires Combined(h0, h3, s1, len, max, t.w, depth, depth', t.node, n, m)
    ensures Building(h3, len - 1, max - 2, Join(t, n, m), depth')
    ensures TotalDefined(h0, len, t) && TotalDefined(h3, len - 1, Join(t, n, m)) && Total(h3, len - 1, Join(t, n, m)) == Total(h0, len, t)
    ensures Good(t) && |t.w| == |depth| && LightestPair(t, depth, n, m) && 2 <= max <= |h0| && h3[max - 2..] == [m, n] + h0[max..]
    ensures (n in t.leaves || t.elems <= n) && (m in t.leaves || t.elems <= m) && t.elems <= t.node
  {
    hide Good, HeapFrom, MergeCost, WeightsOf, ParentsFirst, InnerWeight, TreeNodes;
    var s0 := h0[1..len + 1];
    assert n == s0[0];
    LivePair(s0, t.live, s1, n, m);
    LightestLive(h0, s1, len, t, depth, n, m);
    JoinGood(t, n, m);
    OrderStep(h0[max..], t, n, m);
    Sizes(t);
    LiveBelow(t, n);
    LiveBelow(t, m);
    LiveStep(t.live, s0, s1, h3[1..len], n, m, t.node);
    TotalKept(h0, h3, s1, len, t, n, m);
  }

  lemma {:induction false} LightestLive(h0: seq<nat>, s1: seq<nat>, len: nat, t: Forest, depth: seq<nat>, n: nat, m: nat)
    requires Good(t) && Second(h0, s1, len, t.w, depth, t.node, n, m) && multiset(h0[1..len + 1]) == multiset(t.live)
    requires n in t.live && m in t.live && n != m
    ensures LightestPair(t, depth, n, m)
  {
    hide KidGood, ParentGood, Smaller;
    forall x | x in t.live ensures Smaller(t.w, depth, n, x) && (x != n ==> Smaller(t.w, depth, m, x)) {
      assert x in multiset(h0[1..len + 1]);
      var i :| 0 <= i < len && h0[1..len + 1][i] == x;
      assert h0[i + 1] == x;
      if x != n {
        assert x in multiset(s1);
        var j :| 0 <= j < |s1| && s1[j] == x;
      }
    }
  }

  lemma HeapSame(h: seq<nat>, h': seq<nat>, len: nat, freq: seq<nat>, depth: seq<nat>)
    requires Nodes(h, len, freq, depth) && HeapFrom(h, len, freq, depth, 1) && |h'| == |h|
    requires forall i :: 1 <= i <= len ==> h'[i] == h[i]
    ensures Nodes(h', len, freq, depth) && HeapFrom(h', len, freq, depth, 1)
  {
    forall i | 1 <= i <= len ensures Father(h', len, freq, depth, i) { assert Father(h, len, freq, depth, i); }
  }

  lemma LiveStep(live: set<nat>, s0: seq<nat>, s1: seq<nat>, s2: seq<nat>, n: nat, m: nat, node: nat)
    requires multiset(s0) == multiset(live) == multiset(s1) + multiset{n} && n in live && m in live && n != m && node !in live
    requires multiset(s2) == multiset(s1) - multiset{m} + multiset{node}
    ensures multiset(s2) == multiset(live - {n, m} + {node})
  {
    assert multiset(s1) == multiset(live) - multiset{n} == multiset(live - {n});
    assert multiset(live - {n, m}) == multiset(live - {n}) - multiset{m};
  }

  lemma {:induction false} TotalKept(h0: seq<nat>, h3: seq<nat>, s1: seq<nat>, len: nat, t: Forest, n: nat, m: nat)
    requires Good(t) && t.node < |t.dad| && n < t.node && m < t.node && Good(Join(t, n, m)) && 2 <= len < |h0| == |h3|
    requires Below(h0[1..len + 1], |t.w|) && Below(h3[1..len], |t.w|) && Below(s1, t.node)
    requires (forall i :: 1 <= i <= len ==> h0[i] < |t.w|) && (forall i :: 1 <= i <= len - 1 ==> h3[i] < |t.w|)
    requires multiset(h0[1..len + 1]) == multiset(s1) + multiset{n} && m in s1
    requires multiset(h3[1..len]) == multiset(s1) - multiset{m} + multiset{t.node}
    requires forall i :: 1 <= i <= len ==> t.w[n] <= t.w[h0[i]]
    requires forall j :: 0 <= j < |s1| ==> t.w[m] <= t.w[s1[j]]
    ensures Total(h3, len - 1, Join(t, n, m)) == Total(h0, len, t)
  {
    hide Good, MergeCost, WeightsOf, InnerWeight;
    Sizes(t);
    var u := Join(t, n, m);
    OneMerge(h0[1..len + 1], s1, h3[1..len], n, m, t.node, t.w, u.w);
    InnerAppend(t, u, t.elems);
  }

  lemma TopSmallest(h: seq<nat>, len: nat, freq: seq<nat>, depth: seq<nat>)
    requires Nodes(h, len, freq, depth) && HeapFrom(h, len, freq, depth, 1) && len >= 1
    ensures forall i :: 1 <= i <= len ==> Smaller(freq, depth, h[1], h[i])
  {
    forall i | 1 <= i <= len ensures Smaller(freq, depth, h[1], h[i]) { TopIsSmallest(h, len, freq, depth, i); }
  }
}
