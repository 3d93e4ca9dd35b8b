/** The priority queue of gzip's tree builder: a binary heap in heap[1..len], ordered by frequency with the
    depth of the subtree as tie breaker. */
module HuffmanHeap {

  /** SMALLER */
  predicate Smaller(freq: seq<nat>, depth: seq<nat>, n: nat, m: nat)
    requires n < |freq| && m < |freq| && |depth| == |freq|
  {
    freq[n] < freq[m] || (freq[n] == freq[m] && depth[n] <= depth[m])
  }

  ghost predicate Nodes(h: seq<nat>, len: nat, freq: seq<nat>, depth: seq<nat>) {
    len < |h| && |depth| == |freq| && forall i :: 1 <= i <= len ==> h[i] < |freq|
  }

  /** i is not larger than its children, as far as they exist. */
  ghost predicate Father(h: seq<nat>, len: nat, freq: seq<nat>, depth: seq<nat>, i: nat)
    requires Nodes(h, len, freq, depth) && i >= 1
  {
    && (2 * i <= len ==> Smaller(freq, depth, h[i], h[2 * i]))
    && (2 * i + 1 <= len ==> Smaller(freq, depth, h[i], h[2 * i + 1]))
  }

  ghost predicate HeapFrom(h: seq<nat>, len: nat, freq: seq<nat>, depth: seq<nat>, lo: nat)
    requires Nodes(h, len, freq, depth) && lo >= 1
  {
    forall i :: lo <= i <= len ==> Father(h, len, freq, depth, i)
  }

  lemma SwapPerm(s: seq<nat>, i: nat, j: nat)
    requires i < |s| && j < |s|
    ensures multiset(s[i := s[j]][j := s[i]]) == multiset(s)
  {
  }

  /** The invariant of the sift: everything but k is in order, and k's father is not larger than k's children. */
  ghost predicate Sifting(h: seq<nat>, len: nat, freq: seq<nat>, depth: seq<nat>, lo: nat, k: nat) {
    && Nodes(h, len, freq, depth) && 1 <= lo <= k <= len
    && (forall i :: lo <= i <= len && i != k ==> Father(h, len, freq, depth, i))
    && (k / 2 >= lo && 2 * k <= len ==> Smaller(freq, depth, h[k / 2], h[2 * k]))
    && (k / 2 >= lo && 2 * k + 1 <= len ==> Smaller(freq, depth, h[k / 2], h[2 * k + 1]))
  }

  /** Exchanging k with the smaller of its children moves the disorder down. */
  lemma {:induction false} SiftStep(h: seq<nat>, len: nat, freq: seq<nat>, depth: seq<nat>, lo: nat, k: nat, j: nat)
    requires Sifting(h, len, freq, depth, lo, k) && (j == 2 * k || j == 2 * k + 1) && j <= len
    requires 2 * k <= len ==> Smaller(freq, depth, h[j], h[2 * k])
    requires 2 * k + 1 <= len ==> Smaller(freq, depth, h[j], h[2 * k + 1])
    requires !Smaller(freq, depth, h[k], h[j])
    ensures Sifting(h[k := h[j]][j := h[k]], len, freq, depth, lo, j)
  {
    var h' := h[k := h[j]][j := h[k]];
    assert j / 2 == k;
    assert Father(h, len, freq, depth, j);
    forall i | lo <= i <= len && i != j ensures Father(h', len, freq, depth, i) {
      if i != k {
        assert Father(h, len, freq, depth, i);
        if 2 * i == k || 2 * i + 1 == k { assert i == k / 2; }
      }
    }
  }

  /** Set j to the smallest of the two sons. */
  method SmallestSon(heap: array<nat>, len: nat, k: nat, freq: seq<nat>, depth: seq<nat>, ghost h: seq<nat>) returns (j: nat)
    requires 1 <= k && 2 * k <= len && Nodes(h, len, freq, depth) && |h| == heap.Length && heap[..] == h[k := heap[k]]
    ensures (j == 2 * k || j == 2 * k + 1) && j <= len && heap[j] == h[j]
    ensures Smaller(freq, depth, h[j], h[2 * k]) && (2 * k + 1 <= len ==> Smaller(freq, depth, h[j], h[2 * k + 1]))
  {
    j := 2 * k;
    assert forall i :: 0 <= i < |h| && i != k ==> heap[i] == heap[..][i] == h[i];
    if j < len && Smaller(freq, depth, heap[j + 1], heap[j]) { j := j + 1; }
  }

  /** A rearrangement of the elements lo to hi. */
  ghost predicate Moved(h: seq<nat>, h': seq<nat>, lo: nat, hi: nat) {
    |h'| == |h| && multiset(h') == multiset(h) && forall i :: 0 <= i < |h| && !(lo <= i <= hi) ==> h'[i] == h[i]
  }

  lemma MovedNot(h: seq<nat>, lo: nat, hi: nat)
    ensures Moved(h, h, lo, hi)
  {
  }

  lemma MovedMore(h: seq<nat>, h': seq<nat>, lo: nat, hi: nat, k: nat, j: nat)
    requires Moved(h, h', lo, hi) && lo <= k <= hi < |h| && lo <= j <= hi
    ensures Moved(h, h'[k := h'[j]][j := h'[k]], lo, hi)
  {
    SwapPerm(h', k, j);
  }

  /** pqdownheap: restore the heap property by moving the node at k0 down. */
  method PqDownHeap(heap: array<nat>, len: nat, k0: nat, freq: seq<nat>, depth: seq<nat>)
    requires Nodes(heap[..], len, freq, depth) && 1 <= k0 <= len && HeapFrom(heap[..], len, freq, depth, k0 + 1)
    modifies heap
    ensures Nodes(heap[..], len, freq, depth) && HeapFrom(heap[..], len, freq, depth, k0)
    ensures Moved(old(heap[..]), heap[..], k0, len)
  {
    hide Father, Smaller, Sifting, HeapFrom, Moved;
    MovedNot(heap[..], k0, len);
    var k, v := k0, heap[k0];
    ghost var h := heap[..];
    SiftStart(h, len, freq, depth, k0);
    while 2 * k <= len
      invariant k0 <= k <= len && |h| == heap.Length && h[k] == v && Sifting(h, len, freq, depth, k0, k)
      invariant heap[..] == h[k := heap[k]] && Nodes(h, len, freq, depth)
      invariant Moved(old(heap[..]), h, k0, len)
      decreases len - k
    {
      var j := SmallestSon(heap, len, k, freq, depth, h);
      if Smaller(freq, depth, v, heap[j]) {
        SiftDone(h, len, freq, depth, k0, k, j);
        heap[k] := v;
        assert heap[..] == h;
        return;
      }
      SiftStep(h, len, freq, depth, k0, k, j);
      MovedMore(old(heap[..]), h, k0, len, k, j);
      heap[k] := heap[j];
      h := h[k := h[j]][j := h[k]];
      k := j;
    }
    SiftBottom(h, len, freq, depth, k0, k);
    heap[k] := v;
    assert heap[..] == h;
  }

  lemma SiftStart(h: seq<nat>, len: nat, freq: seq<nat>, depth: seq<nat>, k: nat)
    requires Nodes(h, len, freq, depth) && 1 <= k <= len && HeapFrom(h, len, freq, depth, k + 1)
    ensures Sifting(h, len, freq, depth, k, k)
  {
    hide Father;
    assert k / 2 < k;
  }

  lemma SiftDone(h: seq<nat>, len: nat, freq: seq<nat>, depth: seq<nat>, lo: nat, k: nat, j: nat)
    requires Sifting(h, len, freq, depth, lo, k) && (j == 2 * k || j == 2 * k + 1) && j <= len
    requires Smaller(freq, depth, h[j], h[2 * k]) && (2 * k + 1 <= len ==> Smaller(freq, depth, h[j], h[2 * k + 1]))
    requires Smaller(freq, depth, h[k], h[j])
    ensures HeapFrom(h, len, freq, depth, lo)
  {
    forall i | lo <= i <= len ensures Father(h, len, freq, depth, i) {
      if i == k { assert Father(h, len, freq, depth, k); }
    }
  }

  lemma SiftBottom(h: seq<nat>, len: nat, freq: seq<nat>, depth: seq<nat>, lo: nat, k: nat)
    requires Sifting(h, len, freq, depth, lo, k) && 2 * k > len
    ensures HeapFrom(h, len, freq, depth, lo)
  {
    forall i | lo <= i <= len ensures Father(h, len, freq, depth, i) {
      if i == k { assert Father(h, len, freq, depth, k); }
    }
  }

  /** The top of the heap is the smallest, by frequency and then by depth. */
  lemma {:induction false} TopIsSmallest(h: seq<nat>, len: nat, freq: seq<nat>, depth: seq<nat>, i: nat)
    requires Nodes(h, len, freq, depth) && HeapFrom(h, len, freq, depth, 1) && 1 <= i <= len
    ensures Smaller(freq, depth, h[1], h[i])
    decreases i
  {
    if i > 1 {
      TopIsSmallest(h, len, freq, depth, i / 2);
      assert Father(h, len, freq, depth, i / 2);
      assert i == 2 * (i / 2) || i == 2 * (i / 2) + 1;
    }
  }
}
