/** The order of Debian version strings (section 5.6.12 of the Debian Policy Manual) and the comparison in dpkg.c. */
module DebVersion {
  import opened Bytes

  /** A C string: its end is not part of it, and no byte in it is zero. */
  predicate CString(s: seq<Byte>) {
    forall i :: 0 <= i < |s| ==> s[i] != 0
  }

  predicate IsDigit(c: Byte) {
    48 <= c <= 57
  }

  predicate IsAlpha(c: Byte) {
    65 <= c <= 90 || 97 <= c <= 122
  }

  /** order(): tilde before everything, even the end; then letters; then everything else. */
  function Order(c: Byte): int {
    if c == 126 then -1 else if c == 0 then 0 else if IsDigit(c) then 0 else if IsAlpha(c) then c else c + 256
  }

  // ---------- the policy ----------

  /** The length of the initial part without digits. */
  function Lead(s: seq<Byte>): (n: nat)
    ensures n <= |s| && (n < |s| ==> IsDigit(s[n])) && forall i :: 0 <= i < n ==> !IsDigit(s[i])
  {
    if s == [] || IsDigit(s[0]) then 0 else 1 + Lead(s[1..])
  }

  /** The length of the initial part of digits. */
  function Digits(s: seq<Byte>): (n: nat)
    ensures n <= |s| && (n < |s| ==> !IsDigit(s[n])) && forall i :: 0 <= i < n ==> IsDigit(s[i])
  {
    if s == [] || !IsDigit(s[0]) then 0 else 1 + Digits(s[1..])
  }

  predicate AllDigits(s: seq<Byte>) {
    forall i :: 0 <= i < |s| ==> IsDigit(s[i])
  }

  /** The number that a string of digits denotes; the empty string denotes zero. */
  function Num(s: seq<Byte>): nat
    requires AllDigits(s)
  {
    if s == [] then 0 else 10 * Num(s[..|s| - 1]) + (s[|s| - 1] - 48)
  }

  /** Lexical comparison, in which a part that has ended counts as 0. */
  function Lexical(p: seq<Byte>, q: seq<Byte>): int
    decreases |p| + |q|
  {
    if p == [] && q == [] then 0
    else
      var x, y := if p == [] then 0 else Order(p[0]), if q == [] then 0 else Order(q[0]);
      if x != y then x - y else Lexical(if p == [] then [] else p[1..], if q == [] then [] else q[1..])
  }

  /** The initial part without digits, the number after it, and the rest. */
  function Part(s: seq<Byte>): seq<Byte> {
    s[..Lead(s)]
  }

  function NumberOf(s: seq<Byte>): nat {
    var t := s[Lead(s)..];
    Num(t[..Digits(t)])
  }

  function Rest(s: seq<Byte>): (r: seq<Byte>)
    ensures |r| <= |s| && (s != [] ==> |r| < |s|) && (CString(s) ==> CString(r))
  {
    var t := s[Lead(s)..];
    t[Digits(t)..]
  }

  /** The order of the policy: non-digits lexically, then digits as numbers, and so on. */
  function Policy(a: seq<Byte>, b: seq<Byte>): int
    decreases |a| + |b|
  {
    if a == [] && b == [] then 0
    else if Lexical(Part(a), Part(b)) != 0 then Lexical(Part(a), Part(b))
    else if NumberOf(a) != NumberOf(b) then NumberOf(a) - NumberOf(b)
    else Policy(Rest(a), Rest(b))
  }

  function Sign(x: int): int {
    if x < 0 then -1 else if x > 0 then 1 else 0
  }

  // ---------- why it is an order ----------

  function Weights(p: seq<Byte>): (r: seq<int>)
    ensures |r| == |p| && forall i :: 0 <= i < |p| ==> r[i] == Order(p[i])
  {
    seq(|p|, i requires 0 <= i < |p| => Order(p[i]))
  }

  /** All that the order looks at, as one list of numbers; after its end there are only zeros. */
  function Key(s: seq<Byte>): seq<int>
    decreases |s|
  {
    if s == [] then [] else Weights(Part(s)) + [0, NumberOf(s)] + Key(Rest(s))
  }

  function Head(x: seq<int>): int {
    if x == [] then 0 else x[0]
  }

  function Tail(x: seq<int>): (r: seq<int>)
    ensures |r| == if x == [] then 0 else |x| - 1
  {
    if x == [] then [] else x[1..]
  }

  /** The first difference of two lists. */
  function KeyCompare(x: seq<int>, y: seq<int>): int
    decreases |x| + |y|
  {
    if x == [] && y == [] then 0 else if Head(x) != Head(y) then Head(x) - Head(y) else KeyCompare(Tail(x), Tail(y))
  }

  lemma {:induction false} KeyAntisymmetric(x: seq<int>, y: seq<int>)
    ensures KeyCompare(x, y) == -KeyCompare(y, x)
    decreases |x| + |y|
  {
    if (x != [] || y != []) && Head(x) == Head(y) { KeyAntisymmetric(Tail(x), Tail(y)); }
  }

  lemma {:induction false} KeyTransitive(x: seq<int>, y: seq<int>, z: seq<int>)
    requires KeyCompare(x, y) <= 0 && KeyCompare(y, z) <= 0
    ensures KeyCompare(x, z) <= 0
    decreases |x| + |y| + |z|
  {
    if (x != [] || z != []) && Head(x) == Head(z) {
      if x != [] || y != [] || z != [] {
        assert KeyCompare(x, y) <= 0 ==> Head(x) <= Head(y);
        assert KeyCompare(y, z) <= 0 ==> Head(y) <= Head(z);
        TailCompare(x, y);
        TailCompare(y, z);
        KeyTransitive(Tail(x), Tail(y), Tail(z));
      }
    }
  }

  lemma TailCompare(x: seq<int>, y: seq<int>)
    requires Head(x) == Head(y)
    ensures KeyCompare(Tail(x), Tail(y)) == KeyCompare(x, y)
  {
  }

  lemma OrderNotZero(c: Byte)
    requires c != 0 && !IsDigit(c)
    ensures Order(c) != 0
  {
  }

  ghost predicate NoDigits(s: seq<Byte>) {
    forall i :: 0 <= i < |s| ==> s[i] != 0 && !IsDigit(s[i])
  }

  // ---------- the lexical order as the policy words it ----------

  /** What stands at a place of a part without digits: a tilde, the end of the part, a letter or something else. */
  datatype Mark = Tilde | End | Letter(c: Byte) | Other(c: Byte)

  function MarkAt(p: seq<Byte>, k: nat): Mark {
    if k >= |p| then End else if p[k] == 126 then Tilde else if IsAlpha(p[k]) then Letter(p[k]) else Other(p[k])
  }

  /** A tilde sorts before everything, even the end of a part; letters sort before all that are not letters. */
  predicate Before(x: Mark, y: Mark) {
    match (x, y)
    case (Tilde, _) => y != Tilde
    case (End, _) => y.Letter? || y.Other?
    case (Letter(a), Letter(b)) => a < b
    case (Letter(_), _) => y.Other?
    case (Other(a), Other(b)) => a < b
    case (Other(_), _) => false
  }

  /** At the first place where the parts differ, p comes first. */
  ghost predicate SortsBefore(p: seq<Byte>, q: seq<Byte>) {
    exists k: nat :: k <= |p| && k <= |q| && p[..k] == q[..k] && Before(MarkAt(p, k), MarkAt(q, k))
  }

  /** The order of order() is that order. */
  lemma {:induction false} LexicalMeans(p: seq<Byte>, q: seq<Byte>)
    requires NoDigits(p) && NoDigits(q)
    ensures Lexical(p, q) < 0 <==> SortsBefore(p, q)
    ensures Lexical(p, q) == 0 <==> p == q
    decreases |p| + |q|
  {
    hide Before, MarkAt, SortsBefore;
    if p != [] && q != [] && p[0] == q[0] {
      LexicalMeans(p[1..], q[1..]);
      assert p == [p[0]] + p[1..] && q == [q[0]] + q[1..];
      SortsTail(p, q);
    } else if p != [] || q != [] {
      FirstMark(p, q);
      SortsFirst(p, q);
    } else {
      SortsEmpty();
    }
  }

  lemma SortsEmpty()
    ensures !SortsBefore([], [])
  {
  }

  lemma {:induction false} SortsTail(p: seq<Byte>, q: seq<Byte>)
    requires p != [] && q != [] && p[0] == q[0]
    ensures SortsBefore(p, q) <==> SortsBefore(p[1..], q[1..])
  {
    hide Before;
    if SortsBefore(p, q) {
      var k: nat :| k <= |p| && k <= |q| && p[..k] == q[..k] && Before(MarkAt(p, k), MarkAt(q, k));
      assert k > 0 by { assert !Before(MarkAt(p, 0), MarkAt(q, 0)) by { NotBefore(MarkAt(p, 0)); } }
      assert p[1..][..k - 1] == p[..k][1..] == q[..k][1..] == q[1..][..k - 1];
      assert MarkAt(p[1..], k - 1) == MarkAt(p, k) && MarkAt(q[1..], k - 1) == MarkAt(q, k);
    }
    if SortsBefore(p[1..], q[1..]) {
      var k: nat :| k <= |p[1..]| && k <= |q[1..]| && p[1..][..k] == q[1..][..k] && Before(MarkAt(p[1..], k), MarkAt(q[1..], k));
      assert p[..k + 1] == [p[0]] + p[1..][..k] == q[..k + 1];
      assert MarkAt(p[1..], k) == MarkAt(p, k + 1) && MarkAt(q[1..], k) == MarkAt(q, k + 1);
    }
  }

  lemma NotBefore(x: Mark)
    ensures !Before(x, x)
  {
  }

  lemma {:induction false} SortsFirst(p: seq<Byte>, q: seq<Byte>)
    requires p != [] && q != [] ==> p[0] != q[0]
    ensures SortsBefore(p, q) <==> Before(MarkAt(p, 0), MarkAt(q, 0))
  {
    hide Before, MarkAt;
    assert p[..0] == q[..0];
    forall k: nat | 0 < k <= |p| && k <= |q| ensures p[..k] != q[..k] { assert p[..k][0] == p[0] && q[..k][0] == q[0]; }
  }

  lemma FirstMark(p: seq<Byte>, q: seq<Byte>)
    requires NoDigits(p) && NoDigits(q) && (p != [] || q != []) && (p != [] && q != [] ==> p[0] != q[0])
    ensures Before(MarkAt(p, 0), MarkAt(q, 0)) <==> Lexical(p, q) < 0
    ensures Lexical(p, q) != 0
  {
  }

  /** Comparing the keys part by part. */
  lemma {:induction false} KeyParts(p: seq<Byte>, q: seq<Byte>, n: int, m: int, x: seq<int>, y: seq<int>)
    requires NoDigits(p) && NoDigits(q)
    ensures KeyCompare(Weights(p) + [0, n] + x, Weights(q) + [0, m] + y) ==
      if Lexical(p, q) != 0 then Lexical(p, q) else if n != m then n - m else KeyCompare(x, y)
    decreases |p| + |q|
  {
    var a, b := Weights(p) + [0, n] + x, Weights(q) + [0, m] + y;
    if p == [] && q == [] {
      assert Tail(a) == [n] + x && Tail(b) == [m] + y;
      assert Tail([n] + x) == x && Tail([m] + y) == y;
    } else if p != [] && q != [] {
      if Order(p[0]) == Order(q[0]) {
        assert Weights(p)[1..] == Weights(p[1..]) && Weights(q)[1..] == Weights(q[1..]);
        assert Tail(a) == Weights(p[1..]) + [0, n] + x;
        assert Tail(b) == Weights(q[1..]) + [0, m] + y;
        KeyParts(p[1..], q[1..], n, m, x, y);
      }
    } else if p == [] {
      OrderNotZero(q[0]);
    } else {
      OrderNotZero(p[0]);
    }
  }

  lemma {:induction false} EmptyKey(y: seq<int>)
    ensures KeyCompare([0, 0], y) == KeyCompare([], y) && KeyCompare(y, [0, 0]) == KeyCompare(y, [])
  {
    assert Tail([0, 0]) == [0] && Tail([0]) == [];
    if Head(y) == 0 && Head(Tail(y)) == 0 {
      assert KeyCompare([0], Tail(y)) == KeyCompare([], Tail(Tail(y)));
      assert KeyCompare(Tail(y), [0]) == KeyCompare(Tail(Tail(y)), []);
      assert KeyCompare([], Tail(y)) == KeyCompare([], Tail(Tail(y)));
      assert KeyCompare(Tail(y), []) == KeyCompare(Tail(Tail(y)), []);
    }
  }

  /** The key with its first parts written out, even if the string has ended. */
  function LongKey(s: seq<Byte>): seq<int> {
    Weights(Part(s)) + [0, NumberOf(s)] + Key(Rest(s))
  }

  lemma {:induction false} LongKeys(a: seq<Byte>, b: seq<Byte>)
    ensures KeyCompare(LongKey(a), LongKey(b)) == KeyCompare(Key(a), Key(b))
  {
    hide KeyCompare, Part, NumberOf, Rest;
    EmptyKey(Key(a));
    EmptyKey(Key(b));
    EmptyKey([0, 0]);
    if a == [] { EmptyParts(a); }
    if b == [] { EmptyParts(b); }
  }

  lemma EmptyParts(s: seq<Byte>)
    requires s == []
    ensures LongKey(s) == [0, 0]
  {
  }

  lemma PartNoDigits(s: seq<Byte>)
    requires CString(s)
    ensures NoDigits(Part(s))
  {
  }

  /** What the order is: the order of the keys. */
  lemma {:induction false} PolicyIsKeys(a: seq<Byte>, b: seq<Byte>)
    requires CString(a) && CString(b)
    ensures Policy(a, b) == KeyCompare(Key(a), Key(b))
    decreases |a| + |b|
  {
    hide NumberOf, Part, Rest, Lexical;
    if a != [] || b != [] {
      PolicyIsKeys(Rest(a), Rest(b));
      PartNoDigits(a);
      PartNoDigits(b);
      KeyParts(Part(a), Part(b), NumberOf(a), NumberOf(b), Key(Rest(a)), Key(Rest(b)));
      LongKeys(a, b);
    }
  }

  /** The order is total: antisymmetric in sign, transitive, and any two strings can be compared. */
  lemma {:induction false} PolicyIsPreorder(a: seq<Byte>, b: seq<Byte>, c: seq<Byte>)
    requires CString(a) && CString(b) && CString(c)
    ensures Policy(a, a) == 0 && Policy(a, b) == -Policy(b, a)
    ensures Policy(a, b) <= 0 && Policy(b, c) <= 0 ==> Policy(a, c) <= 0
  {
    PolicyIsKeys(a, a);
    PolicyIsKeys(a, b);
    PolicyIsKeys(b, a);
    PolicyIsKeys(b, c);
    PolicyIsKeys(a, c);
    KeyAntisymmetric(Key(a), Key(a));
    KeyAntisymmetric(Key(a), Key(b));
    if Policy(a, b) <= 0 && Policy(b, c) <= 0 { KeyTransitive(Key(a), Key(b), Key(c)); }
  }

  // ---------- the order by the first parts that differ ----------

  /** What is left after k parts with their numbers. */
  function Later(s: seq<Byte>, k: nat): seq<Byte> {
    if k == 0 then s else Later(Rest(s), k - 1)
  }

  predicate Agree(a: seq<Byte>, b: seq<Byte>) {
    Part(a) == Part(b) && NumberOf(a) == NumberOf(b)
  }

  /** The first parts decide, or, if they are the same, the numbers after them. */
  ghost predicate Decides(a: seq<Byte>, b: seq<Byte>) {
    SortsBefore(Part(a), Part(b)) || (Part(a) == Part(b) && NumberOf(a) < NumberOf(b))
  }

  /** a is the earlier version: after some parts and numbers that are the same in both, it sorts first. */
  ghost predicate Earlier(a: seq<Byte>, b: seq<Byte>) {
    exists k: nat :: (forall j: nat :: j < k ==> Agree(Later(a, j), Later(b, j))) && Decides(Later(a, k), Later(b, k))
  }

  /** If the first parts and numbers are the same, the rests decide. */
  lemma {:induction false} EarlierRest(a: seq<Byte>, b: seq<Byte>)
    requires Agree(a, b)
    ensures Earlier(a, b) <==> Earlier(Rest(a), Rest(b))
  {
    hide Decides, Agree, Rest;
    if Earlier(a, b) {
      var k: nat :| (forall j: nat :: j < k ==> Agree(Later(a, j), Later(b, j))) && Decides(Later(a, k), Later(b, k));
      assert k > 0 by { assert !Decides(a, b) by { AgreeDecides(a, b); } }
      forall j: nat | j < k - 1 ensures Agree(Later(Rest(a), j), Later(Rest(b), j)) {
        assert Later(a, j + 1) == Later(Rest(a), j) && Later(b, j + 1) == Later(Rest(b), j);
      }
      assert Decides(Later(Rest(a), k - 1), Later(Rest(b), k - 1));
    }
    if Earlier(Rest(a), Rest(b)) {
      var k: nat :| (forall j: nat :: j < k ==> Agree(Later(Rest(a), j), Later(Rest(b), j))) && Decides(Later(Rest(a), k), Later(Rest(b), k));
      forall j: nat | j < k + 1 ensures Agree(Later(a, j), Later(b, j)) {
        if j > 0 { assert Later(a, j) == Later(Rest(a), j - 1) && Later(b, j) == Later(Rest(b), j - 1); }
      }
      assert Decides(Later(a, k + 1), Later(b, k + 1));
    }
  }

  lemma AgreeDecides(a: seq<Byte>, b: seq<Byte>)
    requires Agree(a, b)
    ensures !Decides(a, b)
  {
    hide Part, NumberOf, SortsBefore;
    SortsSelf(Part(a));
  }

  lemma SortsSelf(p: seq<Byte>)
    ensures !SortsBefore(p, p)
  {
    hide Before, MarkAt;
    forall k: nat | k <= |p| ensures !Before(MarkAt(p, k), MarkAt(p, k)) { NotBefore(MarkAt(p, k)); }
  }

  /** Otherwise they decide. */
  lemma EarlierFirst(a: seq<Byte>, b: seq<Byte>)
    requires !Agree(a, b)
    ensures Earlier(a, b) <==> Decides(a, b)
  {
    hide Decides, Agree, Rest;
    assert Later(a, 0) == a && Later(b, 0) == b;
  }

  lemma {:induction false} EarlierEmpty()
    ensures !Earlier([], [])
  {
    hide Decides, Agree;
    forall k: nat ensures !Decides(Later([], k), Later([], k)) {
      LaterEmpty(k);
      AgreeDecides([], []) by { assert Agree([], []) by { AgreeSelf([]); } }
    }
  }

  lemma AgreeSelf(a: seq<Byte>)
    ensures Agree(a, a)
  {
  }

  lemma {:induction false} LaterEmpty(k: nat)
    ensures Later([], k) == []
  {
    if k > 0 { LaterEmpty(k - 1); }
  }

  /** The order of the policy is that order. */
  lemma {:induction false} PolicyMeans(a: seq<Byte>, b: seq<Byte>)
    requires CString(a) && CString(b)
    ensures (Policy(a, b) < 0 <==> Earlier(a, b)) && (Policy(a, b) > 0 <==> Earlier(b, a))
    decreases |a| + |b|
  {
    hide Part, NumberOf, Rest, Lexical, SortsBefore, Earlier;
    PartNoDigits(a);
    PartNoDigits(b);
    LexicalMeans(Part(a), Part(b));
    LexicalMeans(Part(b), Part(a));
    LexicalSwap(Part(a), Part(b));
    SortsSelf(Part(a));
    if a == [] && b == [] {
      EarlierEmpty();
    } else if Agree(a, b) {
      EarlierRest(a, b);
      EarlierRest(b, a);
      PolicyMeans(Rest(a), Rest(b));
    } else {
      EarlierFirst(a, b);
      EarlierFirst(b, a);
    }
  }

  lemma {:induction false} LexicalSwap(p: seq<Byte>, q: seq<Byte>)
    ensures Lexical(p, q) == -Lexical(q, p)
    decreases |p| + |q|
  {
    hide Order;
    if p != [] || q != [] { LexicalSwap(if p == [] then [] else p[1..], if q == [] then [] else q[1..]); }
  }

  // ---------- the same on strings, character by character ----------

  lemma {:induction false} LeadLength(p: seq<Byte>, s: seq<Byte>)
    requires forall i :: 0 <= i < |p| ==> !IsDigit(p[i])
    ensures Lead(p + s) == |p| + Lead(s)
    decreases |p|
  {
    hide IsDigit;
    if p == [] {
      assert p + s == s;
    } else {
      assert (p + s)[1..] == p[1..] + s;
      LeadLength(p[1..], s);
    }
  }

  lemma LeadAfter(p: seq<Byte>, s: seq<Byte>)
    requires NoDigits(p)
    ensures Part(p + s) == p + Part(s) && NumberOf(p + s) == NumberOf(s) && Rest(p + s) == Rest(s)
  {
    hide Lead, Num, Digits, IsDigit;
    LeadLength(p, s);
    assert (p + s)[Lead(p + s)..] == s[Lead(s)..];
  }

  lemma {:induction false} OnlyDigits(d: seq<Byte>)
    requires AllDigits(d)
    ensures Part(d) == [] && NumberOf(d) == Num(d) && Rest(d) == []
  {
    hide Num, Digits, IsDigit;
    assert Lead(d) == 0;
    hide Lead;
    assert d[0..] == d;
    assert Digits(d) == |d|;
    assert d[..|d|] == d;
  }

  /** After the same part without digits, strings of digits are compared as numbers. */
  lemma {:induction false} DigitsDecide(p: seq<Byte>, d: seq<Byte>, e: seq<Byte>)
    requires NoDigits(p) && AllDigits(d) && AllDigits(e)
    ensures Earlier(p + d, p + e) <==> Num(d) < Num(e)
  {
    hide Part, NumberOf, Rest, Lead, Num, SortsBefore, Earlier;
    LeadAfter(p, d);
    LeadAfter(p, e);
    OnlyDigits(d);
    OnlyDigits(e);
    if Num(d) == Num(e) {
      EarlierRest(p + d, p + e);
      EarlierEmpty();
    } else {
      EarlierFirst(p + d, p + e);
      SortsSelf(p + []);
    }
  }

  /** What follows the same part without digits: a tilde sorts before all else, even the end; then letters; then other
      characters; and both in the order of their codes. */
  lemma {:induction false} CharactersDecide(p: seq<Byte>, c: Byte, x: seq<Byte>, d: Byte, y: seq<Byte>)
    requires NoDigits(p) && c != 0 && d != 0
    ensures c == 126 ==> Earlier(p + ([c] + x), p) && (d != 126 ==> Earlier(p + ([c] + x), p + ([d] + y)))
    ensures c != 126 && !(48 <= c <= 57) ==> Earlier(p, p + ([c] + x))
    ensures (65 <= c <= 90 || 97 <= c <= 122) && !(65 <= d <= 90 || 97 <= d <= 122) && d != 126 && !(48 <= d <= 57) ==>
              Earlier(p + ([c] + x), p + ([d] + y))
    ensures (65 <= c <= 90 || 97 <= c <= 122) && (65 <= d <= 90 || 97 <= d <= 122) && c < d ==>
              Earlier(p + ([c] + x), p + ([d] + y))
    ensures c < d && c != 126 && d != 126 && !(48 <= c <= 90 || 97 <= c <= 122) && !(48 <= d <= 90 || 97 <= d <= 122) ==>
              Earlier(p + ([c] + x), p + ([d] + y))
  {
    hide Part, Before, MarkAt, Earlier, SortsBefore;
    var a, b := [c] + x, [d] + y;
    OneMark(c, x);
    OneMark(d, y);
    assert p + [] == p;
    assert MarkAt(Part([]), 0) == End by { EndMark(); }
    MarksOf(c, d);
    if Before(MarkAt(Part(a), 0), End) { MarkDecides(p, a, []); }
    if Before(End, MarkAt(Part(a), 0)) { MarkDecides(p, [], a); }
    if Before(MarkAt(Part(a), 0), MarkAt(Part(b), 0)) { MarkDecides(p, a, b); }
  }

  lemma EndMark()
    ensures MarkAt(Part([]), 0) == End
  {
  }

  /** The mark of a character. */
  function MarkOf(c: Byte): Mark {
    if IsDigit(c) then End else if c == 126 then Tilde else if IsAlpha(c) then Letter(c) else Other(c)
  }

  lemma OneMark(c: Byte, x: seq<Byte>)
    ensures MarkAt(Part([c] + x), 0) == MarkOf(c)
  {
    assert ([c] + x)[1..] == x;
  }

  lemma MarksOf(c: Byte, d: Byte)
    ensures c == 126 ==> Before(MarkOf(c), End) && (d != 126 ==> Before(MarkOf(c), MarkOf(d)))
    ensures c != 126 && !(48 <= c <= 57) ==> Before(End, MarkOf(c))
    ensures (65 <= c <= 90 || 97 <= c <= 122) && !(65 <= d <= 90 || 97 <= d <= 122) && d != 126 && !(48 <= d <= 57) ==> Before(MarkOf(c), MarkOf(d))
    ensures (65 <= c <= 90 || 97 <= c <= 122) && (65 <= d <= 90 || 97 <= d <= 122) && c < d ==> Before(MarkOf(c), MarkOf(d))
    ensures c < d && c != 126 && d != 126 && !(48 <= c <= 90 || 97 <= c <= 122) && !(48 <= d <= 90 || 97 <= d <= 122) ==> Before(MarkOf(c), MarkOf(d))
  {
  }

  lemma {:induction false} MarkDecides(p: seq<Byte>, a: seq<Byte>, b: seq<Byte>)
    requires NoDigits(p) && Before(MarkAt(Part(a), 0), MarkAt(Part(b), 0))
    ensures Earlier(p + a, p + b)
  {
    hide Part, NumberOf, Rest, Lead, Before, Earlier;
    LeadAfter(p, a);
    LeadAfter(p, b);
    var u, v := Part(p + a), Part(p + b);
    assert u[..|p|] == p == v[..|p|];
    MarkAfter(p, Part(a));
    MarkAfter(p, Part(b));
    assert SortsBefore(u, v);
    SortsSelf(u);
    EarlierFirst(p + a, p + b);
  }

  lemma MarkAfter(p: seq<Byte>, q: seq<Byte>)
    ensures MarkAt(p + q, |p|) == MarkAt(q, 0)
  {
  }

  // ---------- numbers as strings of digits ----------

  function Pow10(n: nat): (r: nat)
    ensures r >= 1
  {
    if n == 0 then 1 else 10 * Pow10(n - 1)
  }

  lemma {:induction false} NumBounds(s: seq<Byte>)
    requires AllDigits(s)
    ensures Num(s) < Pow10(|s|) && (s != [] && s[0] != 48 ==> Num(s) >= Pow10(|s| - 1))
    decreases |s|
  {
    if |s| == 1 {
      assert s[..0] == [];
    } else if |s| > 1 {
      NumBounds(s[..|s| - 1]);
    }
  }

  lemma {:induction false} PowMono(a: nat, b: nat)
    requires a <= b
    ensures Pow10(a) <= Pow10(b)
    decreases b
  {
    if a < b { PowMono(a, b - 1); }
  }

  /** Without leading zeros, the longer number is the larger one. */
  lemma {:induction false} LongerIsLarger(d: seq<Byte>, e: seq<Byte>)
    requires AllDigits(d) && AllDigits(e) && |d| > |e| && d[0] != 48
    ensures Num(d) > Num(e)
  {
    NumBounds(d);
    NumBounds(e);
    PowMono(|e|, |d| - 1);
  }

  lemma {:induction false} LeadingZero(s: seq<Byte>)
    requires AllDigits(s) && s != [] && s[0] == 48
    ensures Num(s) == Num(s[1..])
    decreases |s|
  {
    if |s| == 1 {
      assert s[..0] == [];
    } else {
      LeadingZero(s[..|s| - 1]);
      assert s[..|s| - 1][1..] == s[1..][..|s| - 2];
    }
  }

  /** The digits at position i of a string. */
  function DigitsAt(s: seq<Byte>, i: nat): (d: seq<Byte>)
    requires i <= |s|
    ensures AllDigits(d) && i + |d| <= |s| && d == s[i..i + |d|] && (i + |d| < |s| ==> !IsDigit(s[i + |d|]))
  {
    s[i..][..Digits(s[i..])]
  }

  lemma DigitsStep(s: seq<Byte>, i: nat)
    requires i < |s| && IsDigit(s[i])
    ensures DigitsAt(s, i) == [s[i]] + DigitsAt(s, i + 1)
  {
    assert s[i..][1..] == s[i + 1..];
  }

  // ---------- the comparison in dpkg.c ----------

  /** The character at the cursor; the end of the string reads as 0, and nothing after it is read. */
  function At(s: seq<Byte>, i: nat): Byte
    requires i <= |s|
  {
    if i < |s| then s[i] else 0
  }

  lemma {:induction false} LexicalFrom(p: seq<Byte>, q: seq<Byte>, k: nat)
    requires k <= |p| && k <= |q| && NoDigits(p) && NoDigits(q)
    ensures k < |p| && k < |q| && Order(p[k]) == Order(q[k]) ==> Lexical(p[k..], q[k..]) == Lexical(p[k + 1..], q[k + 1..])
    ensures k < |p| && k < |q| && Order(p[k]) != Order(q[k]) ==> Lexical(p[k..], q[k..]) == Order(p[k]) - Order(q[k])
    ensures k == |p| && k < |q| ==> Lexical(p[k..], q[k..]) == -Order(q[k]) && Order(q[k]) != 0
    ensures k < |p| && k == |q| ==> Lexical(p[k..], q[k..]) == Order(p[k]) && Order(p[k]) != 0
    ensures k == |p| == |q| ==> Lexical(p[k..], q[k..]) == 0
  {
    if k < |p| { assert p[k..][1..] == p[k + 1..] && p[k..][0] == p[k]; OrderNotZero(p[k]); }
    if k < |q| { assert q[k..][1..] == q[k + 1..] && q[k..][0] == q[k]; OrderNotZero(q[k]); }
  }

  /** The loop over the characters that are not digits. */
  method CompareLead(val: seq<Byte>, i0: nat, ref: seq<Byte>, j0: nat) returns (diff: int, i: nat, j: nat)
    requires CString(val) && CString(ref) && i0 <= |val| && j0 <= |ref|
    ensures diff == Lexical(Part(val[i0..]), Part(ref[j0..]))
    ensures diff == 0 ==> i == i0 + Lead(val[i0..]) && j == j0 + Lead(ref[j0..])
  {
    hide Lexical, Order, Lead;
    ghost var p, q := Part(val[i0..]), Part(ref[j0..]);
    PartNoDigits(val[i0..]);
    PartNoDigits(ref[j0..]);
    i, j := i0, j0;
    assert p[0..] == p && q[0..] == q;
    while (At(val, i) != 0 && !IsDigit(At(val, i))) || (At(ref, j) != 0 && !IsDigit(At(ref, j)))
      invariant i0 <= i <= |val| && j == j0 + (i - i0) <= |ref| && i - i0 <= |p| && i - i0 <= |q|
      invariant Lexical(p[i - i0..], q[i - i0..]) == Lexical(p, q)
      decreases |val| - i
    {
      var vc, rc := Order(At(val, i)), Order(At(ref, j));
      LexicalFrom(p, q, i - i0);
      EndOrDigit(val, i, |p| == i - i0);
      EndOrDigit(ref, j, |q| == j - j0);
      if vc != rc { return vc - rc, i, j; }
      i := i + 1;
      j := j + 1;
    }
    LexicalFrom(p, q, i - i0);
    diff := 0;
  }

  lemma EndOrDigit(s: seq<Byte>, i: nat, ended: bool)
    requires i <= |s| && (ended ==> i == |s| || IsDigit(s[i]))
    ensures ended ==> Order(At(s, i)) == 0
  {
  }

  method SkipZeros(s: seq<Byte>, i0: nat) returns (i: nat)
    requires i0 <= |s|
    ensures i0 <= i <= |s| && At(s, i) != 48
    ensures Num(DigitsAt(s, i)) == Num(DigitsAt(s, i0)) && i + |DigitsAt(s, i)| == i0 + |DigitsAt(s, i0)|
  {
    hide Num, DigitsAt;
    i := i0;
    while At(s, i) == 48
      invariant i0 <= i <= |s|
      invariant Num(DigitsAt(s, i)) == Num(DigitsAt(s, i0)) && i + |DigitsAt(s, i)| == i0 + |DigitsAt(s, i0)|
      decreases |s| - i
    {
      DigitsStep(s, i);
      LeadingZero(DigitsAt(s, i));
      assert ([s[i]] + DigitsAt(s, i + 1))[1..] == DigitsAt(s, i + 1);
      i := i + 1;
    }
  }

  lemma NextDigit(d: seq<Byte>, m: nat)
    requires AllDigits(d) && m < |d|
    ensures Num(d[..m + 1]) == 10 * Num(d[..m]) + (d[m] - 48)
  {
    assert d[..m + 1][..m] == d[..m];
  }

  lemma FirstDigit(first: int, x: nat, y: nat, c: Byte, d: Byte)
    requires Sign(first) == Sign(x - y) && IsDigit(c) && IsDigit(d)
    ensures Sign(if first == 0 then c - d else first) == Sign((10 * x + (c - 48)) - (10 * y + (d - 48)))
  {
  }

  /** The first m digits of the run d are read; the others are at i. */
  ghost predicate Reading(s: seq<Byte>, i: nat, d: seq<Byte>, m: nat) {
    && m <= |d| && AllDigits(d) && i + (|d| - m) <= |s| && d[m..] == s[i..i + (|d| - m)]
    && (i + (|d| - m) < |s| ==> !IsDigit(s[i + (|d| - m)]))
  }

  lemma StartReading(s: seq<Byte>, i: nat)
    requires i <= |s|
    ensures Reading(s, i, DigitsAt(s, i), 0)
    ensures DigitsAt(s, i) != [] ==> DigitsAt(s, i)[0] == At(s, i)
  {
    hide DigitsAt;
    var d := DigitsAt(s, i);
    assert d[0..] == d;
  }

  lemma ReadOne(s: seq<Byte>, i: nat, d: seq<Byte>, m: nat)
    requires Reading(s, i, d, m)
    ensures i <= |s| && AllDigits(d) && m <= |d| && (IsDigit(At(s, i)) <==> m < |d|)
    ensures m < |d| ==> i < |s| && At(s, i) == d[m] && IsDigit(d[m]) && Reading(s, i + 1, d, m + 1)
  {
    if m < |d| {
      assert d[m] == d[m..][0] == s[i..i + (|d| - m)][0];
      assert d[m + 1..] == d[m..][1..] == s[i..i + (|d| - m)][1..];
    }
  }

  /** The loops over the digits: runs of any length are compared as numbers. */
  method CompareNumbers(val: seq<Byte>, i0: nat, ref: seq<Byte>, j0: nat) returns (diff: int, i: nat, j: nat)
    requires i0 <= |val| && j0 <= |ref|
    ensures Sign(diff) == Sign(Num(DigitsAt(val, i0)) - Num(DigitsAt(ref, j0)))
    ensures diff == 0 ==> i == i0 + |DigitsAt(val, i0)| && j == j0 + |DigitsAt(ref, j0)|
  {
    hide Num, DigitsAt, Digits, Reading, At;
    i := SkipZeros(val, i0);
    j := SkipZeros(ref, j0);
    ghost var d, e := DigitsAt(val, i), DigitsAt(ref, j);
    ghost var m := 0;
    var firstDiff := 0;
    assert d[..0] == e[..0] == [];
    StartReading(val, i);
    StartReading(ref, j);
    ghost var i1, j1 := i, j;
    while IsDigit(At(val, i)) && IsDigit(At(ref, j))
      invariant m <= |d| && m <= |e| && i == i1 + m <= |val| && j == j1 + m <= |ref| && Reading(val, i, d, m) && Reading(ref, j, e, m)
      invariant Sign(firstDiff) == Sign(Num(d[..m]) - Num(e[..m]))
      decreases |val| - i
    {
      ReadOne(val, i, d, m);
      ReadOne(ref, j, e, m);
      NextDigit(d, m);
      NextDigit(e, m);
      FirstDigit(firstDiff, Num(d[..m]), Num(e[..m]), d[m], e[m]);
      if firstDiff == 0 { firstDiff := At(val, i) - At(ref, j); }
      i := i + 1;
      j := j + 1;
      m := m + 1;
    }
    ReadOne(val, i, d, m);
    ReadOne(ref, j, e, m);
    assert m == |d| ==> d[..m] == d;
    assert m == |e| ==> e[..m] == e;
    if IsDigit(At(val, i)) {
      LongerIsLarger(d, e);
      return 1, i, j;
    }
    if IsDigit(At(ref, j)) {
      LongerIsLarger(e, d);
      return -1, i, j;
    }
    diff := firstDiff;
  }

  lemma {:induction false} VersionLaws(a: seq<Byte>, b: seq<Byte>)
    requires CString(a) && CString(b)
    ensures (Policy(a, b) < 0 <==> Earlier(a, b)) && (Policy(a, b) > 0 <==> Earlier(b, a))
    ensures Part(a) == Part(b) && NumberOf(a) != NumberOf(b) ==> Sign(Policy(a, b)) == Sign(NumberOf(a) - NumberOf(b))
    ensures Agree(a, b) ==> (Earlier(a, b) <==> Earlier(Rest(a), Rest(b))) && (Earlier(b, a) <==> Earlier(Rest(b), Rest(a)))
    ensures forall p, d, e :: NoDigits(p) && AllDigits(d) && AllDigits(e) && a == p + d && b == p + e ==> Sign(Policy(a, b)) == Sign(Num(d) - Num(e))
  {
    hide Lexical, Part, NumberOf, Rest, Num, Earlier, Policy, SortsBefore;
    PolicyMeans(a, b);
    if Agree(a, b) {
      EarlierRest(a, b);
      EarlierRest(b, a);
    } else if Part(a) == Part(b) {
      SortsSelf(Part(a));
      EarlierFirst(a, b);
      EarlierFirst(b, a);
    }
    forall p, d, e | NoDigits(p) && AllDigits(d) && AllDigits(e) && a == p + d && b == p + e ensures Sign(Policy(a, b)) == Sign(Num(d) - Num(e)) {
      DigitsDecide(p, d, e);
      DigitsDecide(p, e, d);
    }
  }

  /** version_compare_part: the order of the policy, for strings of any length. */
  method VersionComparePart(val: seq<Byte>, ref: seq<Byte>) returns (result: int)
    requires CString(val) && CString(ref)
    ensures Sign(result) == Sign(Policy(val, ref))
    ensures Lexical(Part(val), Part(ref)) != 0 ==> result == Lexical(Part(val), Part(ref))
    ensures (result < 0 <==> Earlier(val, ref)) && (result > 0 <==> Earlier(ref, val))
    ensures Part(val) == Part(ref) && NumberOf(val) != NumberOf(ref) ==> Sign(result) == Sign(NumberOf(val) - NumberOf(ref))
    ensures Agree(val, ref) ==> (result < 0 <==> Earlier(Rest(val), Rest(ref))) && (result > 0 <==> Earlier(Rest(ref), Rest(val)))
    ensures forall p, d, e :: NoDigits(p) && AllDigits(d) && AllDigits(e) && val == p + d && ref == p + e ==> Sign(result) == Sign(Num(d) - Num(e))
  {
    hide Lexical, Part, NumberOf, Rest, DigitsAt, Num, Lead, Earlier, Agree, AllDigits, NoDigits;
    var i, j := 0, 0;
    result := 0;
    assert val[0..] == val && ref[0..] == ref;
    while At(val, i) != 0 || At(ref, j) != 0
      invariant 0 <= i <= |val| && 0 <= j <= |ref| && Policy(val[i..], ref[j..]) == Policy(val, ref)
      invariant result == 0 && (i == j == 0 || Lexical(Part(val), Part(ref)) == 0)
      decreases |val| - i + (|ref| - j)
    {
      ghost var a, b := val[i..], ref[j..];
      var i', j';
      result, i', j' := CompareLead(val, i, ref, j);
      if result != 0 { break; }
      PartsAt(val, i, i');
      PartsAt(ref, j, j');
      i, j := i', j';
      result, i, j := CompareNumbers(val, i, ref, j);
      if result != 0 { break; }
      PolicyStep(a, b);
    }
    assert val == [] && ref == [] ==> Lexical(Part(val), Part(ref)) == 0 by { NoParts(); }
    assert Sign(result) == Sign(Policy(val, ref));
    VersionLaws(val, ref);
  }

  lemma NoParts()
    ensures Lexical(Part([]), Part([])) == 0
  {
  }

  /** The result can be any number of the right sign: here the difference of two letters. */
  method TwoApart() returns (result: int)
    ensures result == 2
  {
    result := VersionComparePart([99], [97]);
    assert Lexical([99], [97]) == 2;
    assert Lead([99]) == 1 && Lead([97]) == 1;
  }

  lemma PartsAt(s: seq<Byte>, i: nat, i': nat)
    requires i <= |s| && i' == i + Lead(s[i..])
    ensures i' <= |s| && NumberOf(s[i..]) == Num(DigitsAt(s, i')) && i' + |DigitsAt(s, i')| <= |s|
    ensures Rest(s[i..]) == s[i' + |DigitsAt(s, i')|..]
  {
    assert s[i..][Lead(s[i..])..] == s[i'..];
  }

  lemma PolicyStep(a: seq<Byte>, b: seq<Byte>)
    requires a != [] || b != []
    requires Lexical(Part(a), Part(b)) == 0 && NumberOf(a) == NumberOf(b)
    ensures Policy(Rest(a), Rest(b)) == Policy(a, b)
    ensures |Rest(a)| + |Rest(b)| < |a| + |b|
  {
  }
}
