/** Why repeated merging of the two smallest weights is optimal among all code lengths that satisfy the
    Kraft inequality, and so among all prefix codes. */
module HuffmanOptimal {
  import opened Arithmetic

  /** A symbol: its weight and the length of its code. */
  datatype Item = Item(w: nat, l: nat)

  function Cost(p: seq<Item>): nat {
    if p == [] then 0 else p[0].w * p[0].l + Cost(p[1..])
  }

  ghost predicate Bounded(p: seq<Item>, max: nat) {
    forall i :: 0 <= i < |p| ==> p[i].l <= max
  }

  /** The Kraft sum in units of 2^-max. */
  function Units(p: seq<Item>, max: nat): nat
    requires Bounded(p, max)
  {
    if p == [] then 0 else Pow2(max - p[0].l) + Units(p[1..], max)
  }

  function LenSum(p: seq<Item>): nat {
    if p == [] then 0 else p[0].l + LenSum(p[1..])
  }

  function Weights(p: seq<Item>): multiset<nat> {
    if p == [] then multiset{} else multiset{p[0].w} + Weights(p[1..])
  }

  // ---------- the cost of merging ----------

  ghost function MinBelow(m: multiset<nat>, x: nat): (r: nat)
    requires x in m
    ensures r in m && forall y :: y in m ==> r <= y
    decreases x
  {
    if y: nat :| y in m && y < x then MinBelow(m, y) else x
  }

  ghost function MinOf(m: multiset<nat>): (r: nat)
    requires m != multiset{}
    ensures r in m && forall y :: y in m ==> r <= y
  {
    var x :| x in m;
    MinBelow(m, x)
  }

  /** Take the two smallest weights out and put their sum back; the cost is the sum of all those sums. */
  ghost function MergeCost(m: multiset<nat>): (c: nat)
    decreases |m|
  {
    if |m| <= 1 then 0
    else
      var a := MinOf(m);
      var m1 := m - multiset{a};
      assert |m1| == |m| - 1;
      var b := MinOf(m1);
      a + b + MergeCost(m1 - multiset{b} + multiset{a + b})
  }

  // ---------- changing one item ----------

  lemma {:induction false} ChangeCost(p: seq<Item>, i: nat, x: Item)
    requires i < |p|
    ensures Cost(p[i := x]) + p[i].w * p[i].l == Cost(p) + x.w * x.l
    ensures LenSum(p[i := x]) + p[i].l == LenSum(p) + x.l
    decreases |p|
  {
    if i > 0 {
      assert p[i := x][1..] == p[1..][i - 1 := x];
      ChangeCost(p[1..], i - 1, x);
    } else {
      assert p[i := x][1..] == p[1..];
    }
  }

  lemma {:induction false} ChangeUnits(p: seq<Item>, i: nat, x: Item, max: nat)
    requires i < |p| && Bounded(p, max) && x.l <= max
    ensures Bounded(p[i := x], max)
    ensures Units(p[i := x], max) + Pow2(max - p[i].l) == Units(p, max) + Pow2(max - x.l)
    decreases |p|
  {
    hide Pow2;
    if i > 0 {
      assert p[i := x][1..] == p[1..][i - 1 := x];
      ChangeUnits(p[1..], i - 1, x, max);
    } else {
      assert p[i := x][1..] == p[1..];
    }
  }

  lemma ReplaceIn(a: multiset<nat>, m: multiset<nat>, x: nat, y: nat)
    requires x in m
    ensures a + (m - multiset{x} + multiset{y}) == (a + m) - multiset{x} + multiset{y}
  {
  }

  lemma {:induction false} ChangeWeights(p: seq<Item>, i: nat, x: Item)
    requires i < |p|
    ensures p[i].w in Weights(p) && Weights(p[i := x]) == Weights(p) - multiset{p[i].w} + multiset{x.w}
    decreases |p|
  {
    if i > 0 {
      assert p[i := x][1..] == p[1..][i - 1 := x];
      ChangeWeights(p[1..], i - 1, x);
      ReplaceIn(multiset{p[0].w}, Weights(p[1..]), p[i].w, x.w);
    } else {
      assert p[i := x][1..] == p[1..];
    }
  }

  function Remove(p: seq<Item>, i: nat): (r: seq<Item>)
    requires i < |p|
    ensures |r| == |p| - 1
    ensures forall j :: 0 <= j < |r| ==> r[j] == (if j < i then p[j] else p[j + 1])
  {
    p[..i] + p[i + 1..]
  }

  lemma {:induction false} RemovedUnits(p: seq<Item>, i: nat, max: nat)
    requires i < |p| && Bounded(p, max)
    ensures Bounded(Remove(p, i), max)
    ensures Units(p, max) == Units(Remove(p, i), max) + Pow2(max - p[i].l)
    decreases |p|
  {
    hide Pow2;
    if i > 0 {
      assert Remove(p, i)[1..] == Remove(p[1..], i - 1);
      RemovedUnits(p[1..], i - 1, max);
    } else {
      assert Remove(p, i) == p[1..];
    }
  }

  lemma {:induction false} Removed(p: seq<Item>, i: nat)
    requires i < |p|
    ensures Cost(p) == Cost(Remove(p, i)) + p[i].w * p[i].l
    ensures Weights(p) == Weights(Remove(p, i)) + multiset{p[i].w}
    decreases |p|
  {
    if i > 0 {
      assert Remove(p, i)[1..] == Remove(p[1..], i - 1);
      Removed(p[1..], i - 1);
    } else {
      assert Remove(p, i) == p[1..];
    }
  }

  lemma {:induction false} Rescale(p: seq<Item>, small: nat, max: nat)
    requires small <= max && Bounded(p, small)
    ensures Bounded(p, max) && Units(p, max) == Units(p, small) * Pow2(max - small)
    decreases |p|
  {
    if p != [] {
      Rescale(p[1..], small, max);
      Pow2Add(small - p[0].l, max - small);
      Distribute(Pow2(small - p[0].l), Units(p[1..], small), Pow2(max - small));
    }
  }

  lemma CancelFactor(a: nat, b: nat, c: nat)
    requires a * c <= b * c && c >= 1
    ensures a <= b
  {
    if a > b { MulStrict(a, b, c); }
  }

  lemma MulStrict(a: nat, b: nat, c: nat)
    requires a > b && c >= 1
    ensures a * c > b * c
  {
    assert a * c >= (b + 1) * c == b * c + c;
  }

  /** The Kraft inequality does not depend on the unit it is measured in. */
  lemma {:induction false} KraftAt(p: seq<Item>, small: nat, max: nat)
    requires small <= max && Bounded(p, small) && Bounded(p, max) && Units(p, max) <= Pow2(max)
    ensures Units(p, small) <= Pow2(small)
  {
    Rescale(p, small, max);
    Pow2Add(small, max - small);
    CancelFactor(Units(p, small), Pow2(small), Pow2(max - small));
  }

  // ---------- the exchange argument ----------

  function SwapLens(p: seq<Item>, x: nat, y: nat): (r: seq<Item>)
    requires x < |p| && y < |p| && x != y
    ensures |r| == |p|
  {
    p[x := Item(p[x].w, p[y].l)][y := Item(p[y].w, p[x].l)]
  }

  /** Giving the longer of two codes to the lighter symbol costs nothing. */
  lemma {:induction false} Swapped(p: seq<Item>, x: nat, y: nat, max: nat)
    requires x < |p| && y < |p| && x != y && Bounded(p, max) && p[x].w <= p[y].w && p[x].l <= p[y].l
    ensures var r := SwapLens(p, x, y);
            Bounded(r, max) && Cost(r) <= Cost(p) && Units(r, max) == Units(p, max) && Weights(r) == Weights(p)
  {
    hide Cost, Units, Weights, LenSum;
    var p1 := p[x := Item(p[x].w, p[y].l)];
    ChangeCost(p, x, Item(p[x].w, p[y].l));
    ChangeCost(p1, y, Item(p[y].w, p[x].l));
    ChangeUnits(p, x, Item(p[x].w, p[y].l), max);
    ChangeUnits(p1, y, Item(p[y].w, p[x].l), max);
    ChangeWeights(p, x, Item(p[x].w, p[y].l));
    ChangeWeights(p1, y, Item(p[y].w, p[x].l));
    Exchange(p[x].w, p[y].w, p[x].l, p[y].l);
    assert Weights(p1) == Weights(p);
  }

  lemma Exchange(a: nat, b: nat, l: nat, m: nat)
    requires a <= b && l <= m
    ensures a * m + b * l <= a * l + b * m
  {
    var d := b - a;
    assert b * l == a * l + d * l && b * m == a * m + d * m;
    assert d * l <= d * m;
  }

  /** An index of the smallest weight other than index `skip`. */
  lemma {:induction false} Lightest(p: seq<Item>, skip: int) returns (i: nat)
    requires |p| >= 2
    ensures i < |p| && i != skip && forall j :: 0 <= j < |p| && j != skip ==> p[i].w <= p[j].w
  {
    i := if skip == 0 then 1 else 0;
    for k := 0 to |p|
      invariant i < |p| && i != skip && forall j :: 0 <= j < k && j != skip ==> p[i].w <= p[j].w
    {
      if k != skip && p[k].w < p[i].w { i := k; }
    }
  }

  lemma {:induction false} Longest(p: seq<Item>) returns (i: nat)
    requires p != []
    ensures i < |p| && Bounded(p, p[i].l)
  {
    i := 0;
    for k := 0 to |p|
      invariant i < |p| && forall j :: 0 <= j < k ==> p[j].l <= p[i].l
    {
      if p[k].l > p[i].l { i := k; }
    }
  }

  /** The lightest two symbols can be given codes of the greatest length, if two symbols have such codes. */
  lemma {:induction false} BringDown(p: seq<Item>, i: nat, j: nat, max: nat) returns (r: seq<Item>, a: nat, b: nat)
    requires i < |p| && j < |p| && i != j && p[i].l == p[j].l == max && Bounded(p, max)
    ensures |r| == |p| && Bounded(r, max) && Cost(r) <= Cost(p) && Units(r, max) == Units(p, max) && Weights(r) == Weights(p)
    ensures a < |r| && b < |r| && a != b && r[a].l == r[b].l == max
    ensures forall k :: 0 <= k < |r| ==> r[a].w <= r[k].w
    ensures forall k :: 0 <= k < |r| && k != a ==> r[b].w <= r[k].w
  {
    hide Cost, Units, Weights, LenSum;
    a := Lightest(p, -1);
    var x := if a == i then j else i;      // an index other than a with the greatest length
    r := p;
    var y := x;                            // after the first exchange: such an index other than a
    if p[a].l < max {
      r := SwapLens(p, a, x);
      Swapped(p, a, x, max);
      y := if x == i then j else i;
    }
    assert y != a && r[y].l == max && r[a].l == max && forall k :: 0 <= k < |r| ==> r[k].w == p[k].w;
    b := Lightest(r, a);
    if r[b].l < max {
      var r1 := SwapLens(r, b, y);
      Swapped(r, b, y, max);
      r := r1;
    }
  }

  /** Merge the two lightest symbols into one with a code that is one bit shorter. */
  lemma {:induction false} MergeItems(p: seq<Item>, a: nat, b: nat, max: nat) returns (r: seq<Item>)
    requires a < |p| && b < |p| && a != b && Bounded(p, max) && max >= 1 && p[a].l == p[b].l == max
    ensures |r| == |p| - 1 && Bounded(r, max) && Units(r, max) == Units(p, max)
    ensures Cost(p) == Cost(r) + p[a].w + p[b].w
    ensures p[a].w in Weights(p) && p[b].w in Weights(p) - multiset{p[a].w}
    ensures Weights(r) == Weights(p) - multiset{p[a].w} - multiset{p[b].w} + multiset{p[a].w + p[b].w}
  {
    hide Cost, Units, Weights, LenSum;
    var q := Remove(p, a);
    var b' := if b < a then b else b - 1;
    Removed(p, a);
    RemovedUnits(p, a, max);
    var it := Item(p[a].w + p[b].w, max - 1);
    assert q[b'] == p[b];
    ChangeCost(q, b', it);
    ChangeUnits(q, b', it, max);
    ChangeWeights(q, b', it);
    r := q[b' := it];
    assert Pow2(max - (max - 1)) == 2 * Pow2(max - max) by { assert Pow2(1) == 2 * Pow2(0); }
    assert (p[a].w + p[b].w) * (max - 1) == p[a].w * max + p[b].w * max - p[a].w - p[b].w by {
      Distribute(p[a].w, p[b].w, max - 1);
    }
  }

  lemma {:induction false} MergeStep(m: multiset<nat>, a: nat, b: nat)
    requires a in m && b in m - multiset{a}
    requires forall y :: y in m ==> a <= y
    requires forall y :: y in m - multiset{a} ==> b <= y
    ensures MergeCost(m) == a + b + MergeCost(m - multiset{a} - multiset{b} + multiset{a + b})
  {
    hide MergeCost;
    var m1 := m - multiset{a};
    TwoInside(m, a, b);
    MinIs(m, a);
    MinIs(m1, b);
    MergeUnfold(m);
  }

  lemma MinIs(m: multiset<nat>, a: nat)
    requires a in m && forall y :: y in m ==> a <= y
    ensures m != multiset{} && MinOf(m) == a
  {
    hide MinBelow;
  }

  lemma TwoInside(m: multiset<nat>, a: nat, b: nat)
    requires a in m && b in m - multiset{a}
    ensures |m| >= 2 && |m - multiset{a}| >= 1
  {
    var m1 := m - multiset{a};
    assert m == m1 + multiset{a};
    assert m1 == (m1 - multiset{b}) + multiset{b};
  }

  lemma MergeUnfold(m: multiset<nat>)
    requires |m| >= 2 && |m - multiset{MinOf(m)}| >= 1
    ensures var a := MinOf(m); var b := MinOf(m - multiset{a});
            MergeCost(m) == a + b + MergeCost(m - multiset{a} - multiset{b} + multiset{a + b})
  {
    hide MinOf;
  }

  lemma {:induction false} WeightIn(p: seq<Item>, y: nat)
    requires y in Weights(p)
    ensures exists k :: 0 <= k < |p| && p[k].w == y
    decreases |p|
  {
    if p[0].w != y {
      WeightIn(p[1..], y);
      var k :| 0 <= k < |p[1..]| && p[1..][k].w == y;
      assert p[k + 1].w == y;
    }
  }

  lemma {:induction false} WeightCount(p: seq<Item>)
    ensures |Weights(p)| == |p|
    decreases |p|
  {
    if p != [] { WeightCount(p[1..]); }
  }

  /** Two lightest symbols with codes of the greatest length: merging them is one step of MergeCost. */
  lemma {:induction false} LightestMerge(p: seq<Item>, a: nat, b: nat)
    requires a < |p| && b < |p| && a != b
    requires forall k :: 0 <= k < |p| ==> p[a].w <= p[k].w
    requires forall k :: 0 <= k < |p| && k != a ==> p[b].w <= p[k].w
    requires p[a].w in Weights(p) && p[b].w in Weights(p) - multiset{p[a].w}
    ensures MergeCost(Weights(p)) == p[a].w + p[b].w
              + MergeCost(Weights(p) - multiset{p[a].w} - multiset{p[b].w} + multiset{p[a].w + p[b].w})
  {
    hide MergeCost, Weights, Cost;
    forall y | y in Weights(p) ensures p[a].w <= y { WeightIn(p, y); }
    Removed(p, a);
    forall y | y in Weights(p) - multiset{p[a].w} ensures p[b].w <= y {
      var q := Remove(p, a);
      assert y in Weights(q);
      WeightIn(q, y);
    }
    MergeStep(Weights(p), p[a].w, p[b].w);
  }

  /** If only one code has the greatest length, it can be made one bit shorter. */
  lemma {:induction false} Shorten(p: seq<Item>, i: nat)
    requires i < |p| && |p| >= 2 && p[i].l >= 1 && Bounded(p, p[i].l) && Units(p, p[i].l) <= Pow2(p[i].l)
    requires forall j :: 0 <= j < |p| && j != i ==> p[j].l < p[i].l
    ensures var r := p[i := Item(p[i].w, p[i].l - 1)];
            && Bounded(r, p[i].l) && Units(r, p[i].l) <= Pow2(p[i].l)
            && Cost(r) <= Cost(p) && LenSum(r) < LenSum(p) && Weights(r) == Weights(p)
  {
    hide Cost, Weights, LenSum, Units;
    var max := p[i].l;
    var it := Item(p[i].w, max - 1);
    RemovedUnits(p, i, max);
    var q := Remove(p, i);
    Rescale(q, max - 1, max);
    assert Pow2(max - (max - 1)) == 2 by { assert Pow2(1) == 2 * Pow2(0); }
    assert Pow2(max) == 2 * Pow2(max - 1);
    assert Units(p, max) == 2 * Units(q, max - 1) + 1;
    ChangeCost(p, i, it);
    ChangeUnits(p, i, it, max);
    ChangeWeights(p, i, it);
    assert p[i].w * (max - 1) <= p[i].w * max;
  }

  lemma {:induction false} NotAllZero(p: seq<Item>)
    requires Bounded(p, 0)
    ensures Units(p, 0) == |p|
    decreases |p|
  {
    if p != [] { NotAllZero(p[1..]); }
  }

  /** No code lengths that satisfy the Kraft inequality cost less than merging. */
  lemma {:induction false} MergingIsOptimal(p: seq<Item>, max: nat)
    requires p != [] && Bounded(p, max) && Units(p, max) <= Pow2(max)
    ensures Cost(p) >= MergeCost(Weights(p))
    decreases |p|, LenSum(p)
  {
    hide Cost, Weights, LenSum, Units;
    WeightCount(p);
    if |p| >= 2 {
      var i := Longest(p);
      var l := p[i].l;
      KraftAt(p, l, max);
      if l == 0 { NotAllZero(p); }
      if j: nat :| j < |p| && j != i && p[j].l == l {
        var r, a, b := BringDown(p, i, j, l);
        var q := MergeItems(r, a, b, l);
        LightestMerge(r, a, b);
        MergingIsOptimal(q, l);
      } else {
        Shorten(p, i);
        MergingIsOptimal(p[i := Item(p[i].w, l - 1)], l);
      }
    }
  }
}
