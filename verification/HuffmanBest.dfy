/** Optimality against all prefix codes: the Kraft inequality for sets of bit strings, and what it means for a
    tree whose lengths were not cut. */
module HuffmanBest {
  import opened Arithmetic
  import opened BitSeq
  import opened HuffmanOptimal
  import opened HuffmanTree
  import opened HuffmanMerge
  import opened HuffmanGen

  // ---------- the Kraft inequality ----------

  ghost predicate Unrelated(w: seq<Bit>, v: seq<Bit>) {
    !(w <= v) && !(v <= w)
  }

  /** No word is a prefix of another. */
  ghost predicate PrefixCode(ws: seq<seq<Bit>>) {
    ws != [] ==> (forall i :: 1 <= i < |ws| ==> Unrelated(ws[0], ws[i])) && PrefixCode(ws[1..])
  }

  ghost predicate Short(ws: seq<seq<Bit>>, max: nat) {
    forall i :: 0 <= i < |ws| ==> |ws[i]| <= max
  }

  ghost function WordUnits(ws: seq<seq<Bit>>, max: nat): nat
    requires Short(ws, max)
  {
    if ws == [] then 0 else Pow2(max - |ws[0]|) + WordUnits(ws[1..], max)
  }

  /** What follows a first bit b. */
  ghost function Tails(ws: seq<seq<Bit>>, b: Bit): (r: seq<seq<Bit>>)
    requires forall i :: 0 <= i < |ws| ==> ws[i] != []
  {
    if ws == [] then [] else (if ws[0][0] == b then [ws[0][1..]] else []) + Tails(ws[1..], b)
  }

  lemma {:induction false} TailFrom(ws: seq<seq<Bit>>, b: Bit, v: seq<Bit>)
    requires (forall i :: 0 <= i < |ws| ==> ws[i] != []) && v in Tails(ws, b)
    ensures exists i :: 0 <= i < |ws| && ws[i] == [b] + v
    decreases |ws|
  {
    if ws[0][0] == b && ws[0][1..] == v {
      assert ws[0] == [b] + v;
    } else {
      assert v in Tails(ws[1..], b);
      TailFrom(ws[1..], b, v);
      var i :| 0 <= i < |ws[1..]| && ws[1..][i] == [b] + v;
      assert ws[i + 1] == [b] + v;
    }
  }

  lemma {:induction false} TailsPrefixCode(ws: seq<seq<Bit>>, b: Bit)
    requires (forall i :: 0 <= i < |ws| ==> ws[i] != []) && PrefixCode(ws)
    ensures PrefixCode(Tails(ws, b))
    decreases |ws|
  {
    if ws != [] {
      TailsPrefixCode(ws[1..], b);
      var rest := Tails(ws[1..], b);
      if ws[0][0] == b {
        var w := ws[0][1..];
        forall v | v in rest ensures Unrelated(w, v) {
          TailFrom(ws[1..], b, v);
          var i :| 0 <= i < |ws[1..]| && ws[1..][i] == [b] + v;
          assert Unrelated(ws[0], ws[i + 1]);
          assert ws[0] == [b] + w;
        }
        assert ([w] + rest)[1..] == rest;
      } else {
        assert Tails(ws, b) == rest;
      }
    }
  }

  lemma {:induction false} TailsUnits(ws: seq<seq<Bit>>, max: nat)
    requires (forall i :: 0 <= i < |ws| ==> ws[i] != []) && Short(ws, max) && max >= 1
    ensures Short(Tails(ws, false), max - 1) && Short(Tails(ws, true), max - 1)
    ensures WordUnits(ws, max) == WordUnits(Tails(ws, false), max - 1) + WordUnits(Tails(ws, true), max - 1)
    decreases |ws|
  {
    hide Pow2;
    if ws != [] {
      TailsUnits(ws[1..], max);
      var w, b := ws[0][1..], ws[0][0];
      var same, other := Tails(ws[1..], b), Tails(ws[1..], !b);
      assert Tails(ws, b) == [w] + same && ([w] + same)[1..] == same;
      assert Tails(ws, !b) == other;
      assert Short([w] + same, max - 1);
    }
  }

  /** The Kraft inequality holds for every prefix code. */
  lemma {:induction false} KraftInequality(ws: seq<seq<Bit>>, max: nat)
    requires PrefixCode(ws) && Short(ws, max)
    ensures WordUnits(ws, max) <= Pow2(max)
    decreases max
  {
    if i :| 0 <= i < |ws| && ws[i] == [] {
      OnlyEmpty(ws, i);
      assert WordUnits(ws[1..], max) == 0;
    } else if max == 0 {
      assert ws == [];
    } else {
      TailsUnits(ws, max);
      TailsPrefixCode(ws, false);
      TailsPrefixCode(ws, true);
      KraftInequality(Tails(ws, false), max - 1);
      KraftInequality(Tails(ws, true), max - 1);
    }
  }

  lemma {:induction false} OnlyEmpty(ws: seq<seq<Bit>>, i: nat)
    requires PrefixCode(ws) && i < |ws| && ws[i] == []
    ensures |ws| == 1
    decreases |ws|
  {
    if |ws| > 1 { FirstUnrelated(ws, if i > 0 then i else 1); }
  }

  lemma FirstUnrelated(ws: seq<seq<Bit>>, i: nat)
    requires PrefixCode(ws) && 1 <= i < |ws|
    ensures Unrelated(ws[0], ws[i])
  {
  }

  // ---------- words for the leaves ----------

  ghost function From(leaves: set<nat>, k: nat, m: nat): (r: seq<nat>)
    requires k <= m
    ensures forall i :: 0 <= i < |r| ==> k <= r[i] < m && r[i] in leaves
    decreases m - k
  {
    if k == m then [] else (if k in leaves then [k] else []) + From(leaves, k + 1, m)
  }

  ghost function Upper(leaves: set<nat>, k: nat, m: nat): set<nat> {
    set x | x in leaves && k <= x < m
  }

  lemma {:induction false} FromSet(leaves: set<nat>, k: nat, m: nat)
    requires k <= m
    ensures multiset(From(leaves, k, m)) == multiset(Upper(leaves, k, m))
    decreases m - k
  {
    if k == m {
      assert Upper(leaves, k, m) == {};
    } else {
      FromSet(leaves, k + 1, m);
      UpperStep(leaves, k, m);
    }
  }

  lemma UpperStep(leaves: set<nat>, k: nat, m: nat)
    requires k < m
    ensures multiset(Upper(leaves, k, m)) == (if k in leaves then multiset{k} else multiset{}) + multiset(Upper(leaves, k + 1, m))
  {
    var t := Upper(leaves, k + 1, m);
    if k in leaves {
      assert Upper(leaves, k, m) == {k} + t;
    } else {
      assert Upper(leaves, k, m) == t;
    }
  }

  ghost function WordsOf(ns: seq<nat>, ws: seq<seq<Bit>>): (r: seq<seq<Bit>>)
    requires forall i :: 0 <= i < |ns| ==> ns[i] < |ws|
    ensures |r| == |ns| && forall i :: 0 <= i < |ns| ==> r[i] == ws[ns[i]]
  {
    seq(|ns|, i requires 0 <= i < |ns| => ws[ns[i]])
  }

  ghost function ItemsOf(ns: seq<nat>, w: seq<nat>, ws: seq<seq<Bit>>): (r: seq<Item>)
    requires forall i :: 0 <= i < |ns| ==> ns[i] < |ws| && ns[i] < |w|
    ensures |r| == |ns| && forall i :: 0 <= i < |ns| ==> r[i] == Item(w[ns[i]], |ws[ns[i]]|)
  {
    seq(|ns|, i requires 0 <= i < |ns| => Item(w[ns[i]], |ws[ns[i]]|))
  }

  lemma {:induction false} ItemUnits(ns: seq<nat>, w: seq<nat>, ws: seq<seq<Bit>>, max: nat)
    requires (forall i :: 0 <= i < |ns| ==> ns[i] < |ws| && ns[i] < |w|) && Short(WordsOf(ns, ws), max)
    ensures Bounded(ItemsOf(ns, w, ws), max) && Units(ItemsOf(ns, w, ws), max) == WordUnits(WordsOf(ns, ws), max)
    ensures Weights(ItemsOf(ns, w, ws)) == WeightsOf(ns, w)
    decreases |ns|
  {
    hide Pow2;
    if ns != [] {
      assert WordsOf(ns, ws)[1..] == WordsOf(ns[1..], ws);
      assert ItemsOf(ns, w, ws)[1..] == ItemsOf(ns[1..], w, ws);
      ItemUnits(ns[1..], w, ws, max);
    }
  }

  /** What the words cost: the sum over the leaves of weight times length. */
  ghost function WordCost(leaves: set<nat>, k: nat, m: nat, w: seq<nat>, ws: seq<seq<Bit>>): nat
    requires k <= m <= |w| && m <= |ws|
    decreases m - k
  {
    if k == m then 0 else (if k in leaves then w[k] * |ws[k]| else 0) + WordCost(leaves, k + 1, m, w, ws)
  }

  lemma {:induction false} ItemCost(leaves: set<nat>, k: nat, m: nat, w: seq<nat>, ws: seq<seq<Bit>>)
    requires k <= m <= |w| && m <= |ws|
    ensures Cost(ItemsOf(From(leaves, k, m), w, ws)) == WordCost(leaves, k, m, w, ws)
    decreases m - k
  {
    if k < m {
      ItemCost(leaves, k + 1, m, w, ws);
      var ns := From(leaves, k, m);
      if k in leaves {
        ItemsCons(k, From(leaves, k + 1, m), w, ws);
      } else {
        assert ns == From(leaves, k + 1, m);
      }
    }
  }

  lemma ItemsCons(k: nat, ns: seq<nat>, w: seq<nat>, ws: seq<seq<Bit>>)
    requires k < |ws| && k < |w| && forall i :: 0 <= i < |ns| ==> ns[i] < |ws| && ns[i] < |w|
    ensures Cost(ItemsOf([k] + ns, w, ws)) == w[k] * |ws[k]| + Cost(ItemsOf(ns, w, ws))
  {
    assert ItemsOf([k] + ns, w, ws)[1..] == ItemsOf(ns, w, ws);
  }

  lemma {:induction false} LongestWord(ws: seq<seq<Bit>>) returns (max: nat)
    ensures Short(ws, max)
    decreases |ws|
  {
    if ws == [] { return 0; }
    var m := LongestWord(ws[1..]);
    max := if m > |ws[0]| then m else |ws[0]|;
    forall i | 0 <= i < |ws| ensures |ws[i]| <= max { if i > 0 { assert ws[i] == ws[1..][i - 1]; } }
  }

  /** No prefix code for the same symbols costs less than merging. */
  lemma {:induction false} MergingBeatsWords(list: seq<nat>, leaves: set<nat>, m: nat, w: seq<nat>, ws: seq<seq<Bit>>)
    requires multiset(list) == multiset(leaves) && leaves != {} && m <= |w| && m <= |ws| && (forall n :: n in leaves ==> n < m)
    requires PrefixCode(WordsOf(From(leaves, 0, m), ws))
    ensures Below(list, |w|) && MergeCost(WeightsOf(list, w)) <= WordCost(leaves, 0, m, w, ws)
  {
    hide MergeCost, PrefixCode, WordUnits, Units, Cost, Weights, WordCost;
    var ns := From(leaves, 0, m);
    FromSet(leaves, 0, m);
    assert Upper(leaves, 0, m) == leaves;
    forall j | 0 <= j < |list| ensures list[j] < |w| { assert list[j] in multiset(leaves); }
    PermWeights(list, ns, w);
    var max := LongestWord(WordsOf(ns, ws));
    KraftInequality(WordsOf(ns, ws), max);
    ItemUnits(ns, w, ws, max);
    ItemCost(leaves, 0, m, w, ws);
    NotEmpty(list, leaves, ns);
    MergingIsOptimal(ItemsOf(ns, w, ws), max);
  }

  lemma NotEmpty(list: seq<nat>, leaves: set<nat>, ns: seq<nat>)
    requires multiset(ns) == multiset(leaves) && leaves != {}
    ensures ns != []
  {
    var x :| x in leaves;
    assert x in multiset(leaves);
  }

  /** The cost of the lengths themselves. */
  function LengthCost(lens: seq<nat>, freq: seq<nat>, m: nat): nat
    requires m <= |lens| && m <= |freq|
  {
    if m == 0 then 0 else LengthCost(lens, freq, m - 1) + freq[m - 1] * lens[m - 1]
  }

  lemma {:induction false} UncutCost(t: Forest, lens: seq<nat>, m: nat, g: nat -> int)
    requires Whole(t) && Uncut(t, lens) && m <= |lens| && m <= |t.w|
    requires forall n: nat :: n < m && n !in t.leaves ==> t.w[n] == 0
    requires forall n: nat :: g(n) == Weighted(t, n)
    ensures LengthCost(lens, t.w, m) == LeafSum(t, m, g)
    decreases m
  {
    hide Whole, Depth;
    if m > 0 {
      UncutCost(t, lens, m - 1, g);
      if m - 1 !in t.leaves { assert t.w[m - 1] * lens[m - 1] == 0; }
    }
  }

  /** Lengths that were not cut are optimal among all prefix codes for the symbols that occur. */
  lemma {:induction false} HuffmanIsOptimal(t: Forest, list: seq<nat>, lens: seq<nat>, freq: seq<nat>, ws: seq<seq<Bit>>)
    requires Whole(t) && Uncut(t, lens) && t.elems <= |lens| && t.elems <= |freq| && t.elems <= |t.w| && t.elems <= |ws|
    requires forall n: nat :: n < t.elems ==> t.w[n] == freq[n]
    requires forall n: nat :: n < t.elems && n !in t.leaves ==> freq[n] == 0
    requires multiset(list) == multiset(t.leaves) && t.leaves != {} && Below(list, t.elems)
    requires InnerWeight(t, t.elems) == MergeCost(WeightsOf(list, freq))
    requires PrefixCode(WordsOf(From(t.leaves, 0, t.elems), ws))
    ensures LengthCost(lens, freq, t.elems) <= WordCost(t.leaves, 0, t.elems, freq, ws)
  {
    hide Good, MergeCost, PrefixCode, WeightsOf, InnerWeight, LengthCost, WordCost, LeafSum, Depth, Uncut;
    Sizes(t);
    var g := (n: nat) => Weighted(t, n);
    UncutCost(t, lens, t.elems, g);
    PathLength(t, g);
    SameCost(lens, t.w, freq, t.elems);
    MergingBeatsWords(list, t.leaves, t.elems, freq, ws);
  }

  lemma {:induction false} SameCost(lens: seq<nat>, freq: seq<nat>, freq': seq<nat>, m: nat)
    requires m <= |lens| && m <= |freq| && m <= |freq'| && forall n :: 0 <= n < m ==> freq[n] == freq'[n]
    ensures LengthCost(lens, freq, m) == LengthCost(lens, freq', m)
    decreases m
  {
    if m > 0 { SameCost(lens, freq, freq', m - 1); }
  }
}
