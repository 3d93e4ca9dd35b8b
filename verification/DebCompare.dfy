/** Whole versions: epoch, upstream version and revision, and the tests on them. */
module DebCompare {
  import opened Bytes
  import opened DebVersion

  const COLON: Byte := 58
  const DASH: Byte := 45

  /** strchr: the first position of c from i on, or the length of the string. */
  function FirstOf(s: seq<Byte>, c: Byte, i: nat): (r: nat)
    requires i <= |s|
    ensures i <= r <= |s| && (r < |s| ==> s[r] == c) && forall k :: i <= k < r ==> s[k] != c
    decreases |s| - i
  {
    if i == |s| || s[i] == c then i else FirstOf(s, c, i + 1)
  }

  /** strrchr: one after the last position of c below n, or 0. */
  function AfterLast(s: seq<Byte>, c: Byte, n: nat): (r: nat)
    requires n <= |s|
    ensures r <= n && (r > 0 ==> s[r - 1] == c) && forall k :: r <= k < n ==> s[k] != c
  {
    if n == 0 || s[n - 1] == c then n else AfterLast(s, c, n - 1)
  }

  predicate IsSpace(c: Byte) {
    c == 32 || 9 <= c <= 13
  }

  /** atoi */
  function Atoi(s: seq<Byte>): int {
    if s != [] && IsSpace(s[0]) then Atoi(s[1..])
    else if s != [] && s[0] == 45 then -(NumPrefix(s[1..]) as int)
    else if s != [] && s[0] == 43 then NumPrefix(s[1..])
    else NumPrefix(s)
  }

  function NumPrefix(s: seq<Byte>): nat {
    Num(s[..Digits(s)])
  }

  /** An int as an unsigned long. */
  function Unsigned(v: int): int {
    if v < 0 then v + 0x1_0000_0000 else v
  }

  datatype Version = Version(epoch: int, upstream: seq<Byte>, revision: seq<Byte>)

  function EpochOf(s: seq<Byte>): int {
    if FirstOf(s, COLON, 0) < |s| then Unsigned(Atoi(s)) else 0
  }

  function AfterEpoch(s: seq<Byte>): seq<Byte> {
    var colon := FirstOf(s, COLON, 0);
    if colon < |s| then s[colon + 1..] else s
  }

  function UpstreamOf(s: seq<Byte>): seq<Byte> {
    var dash := AfterLast(s, DASH, |s|);
    if dash == 0 then s else s[..dash - 1]
  }

  function RevisionOf(s: seq<Byte>): seq<Byte> {
    var dash := AfterLast(s, DASH, |s|);
    if dash == 0 then [] else s[dash..]
  }

  /** Epoch before the first colon, revision after the last dash of the rest; what is missing is 0 or empty. */
  function Split(s: seq<Byte>): (v: Version)
    ensures CString(s) ==> CString(v.upstream) && CString(v.revision)
  {
    Version(EpochOf(s), UpstreamOf(AfterEpoch(s)), RevisionOf(AfterEpoch(s)))
  }

  // ---------- what the pieces of a version string are ----------

  lemma {:induction false} FirstIs(s: seq<Byte>, c: Byte, i: nat, k: nat)
    requires i <= k < |s| && s[k] == c && forall j :: i <= j < k ==> s[j] != c
    ensures FirstOf(s, c, i) == k
  {
  }

  lemma {:induction false} LastIs(s: seq<Byte>, c: Byte, k: nat)
    requires k < |s| && s[k] == c && forall j :: k < j < |s| ==> s[j] != c
    ensures AfterLast(s, c, |s|) == k + 1
  {
  }

  lemma {:induction false} NumberBefore(e: seq<Byte>, t: seq<Byte>)
    requires AllDigits(e) && (t == [] || !IsDigit(t[0]))
    ensures NumPrefix(e + t) == Num(e)
  {
    hide Num;
    var s := e + t;
    assert Digits(s) == |e|;
    assert s[..|e|] == e;
  }

  lemma {:induction false} EpochIs(e: seq<Byte>, t: seq<Byte>)
    requires AllDigits(e)
    ensures EpochOf(e + [58] + t) == Num(e) && AfterEpoch(e + [58] + t) == t
  {
    hide Num, NumPrefix;
    var s := e + [58] + t;
    FirstIs(s, 58, 0, |e|);
    assert s == e + ([58] + t);
    NumberBefore(e, [58] + t);
    assert s[0] == 58 || IsDigit(s[0]);
    assert s[|e| + 1..] == t;
  }

  lemma {:induction false} RevisionIs(u: seq<Byte>, r: seq<Byte>)
    requires 45 !in r
    ensures UpstreamOf(u + [45] + r) == u && RevisionOf(u + [45] + r) == r
  {
    var s := u + [45] + r;
    assert forall j :: |u| < j < |s| ==> s[j] == r[j - |u| - 1];
    LastIs(s, 45, |u|);
    assert s[..|u|] == u && s[|u| + 1..] == r;
  }

  lemma NoRevision(u: seq<Byte>)
    requires 45 !in u
    ensures UpstreamOf(u) == u && RevisionOf(u) == []
  {
  }

  lemma NoEpoch(t: seq<Byte>)
    requires 58 !in t
    ensures EpochOf(t) == 0 && AfterEpoch(t) == t
  {
    hide Atoi;
  }

  /** The format of section 5.6.12, [epoch:]upstream[-revision]: the epoch ends at the first colon, and the revision begins
      after the last dash. */
  lemma {:induction false} SplitMeans(e: seq<Byte>, u: seq<Byte>, r: seq<Byte>)
    requires AllDigits(e) && 45 !in r
    ensures Split(e + [58] + (u + [45] + r)) == Version(Num(e), u, r)
    ensures 45 !in u ==> Split(e + [58] + u) == Version(Num(e), u, [])
    ensures 58 !in u && 58 !in r ==> Split(u + [45] + r) == Version(0, u, r)
    ensures 58 !in u && 45 !in u ==> Split(u) == Version(0, u, [])
  {
    hide Num, EpochOf, AfterEpoch, UpstreamOf, RevisionOf, AllDigits;
    EpochIs(e, u + [45] + r);
    EpochIs(e, u);
    RevisionIs(u, r);
    if 45 !in u { NoRevision(u); }
    if 58 !in u {
      NoEpoch(u);
      if 58 !in r { NoEpoch(u + [45] + r); }
    }
  }

  /** Epochs first, then upstream versions, then revisions. */
  function VersionOrder(x: Version, y: Version): int {
    if x.epoch != y.epoch then x.epoch - y.epoch
    else if Policy(x.upstream, y.upstream) != 0 then Policy(x.upstream, y.upstream)
    else Policy(x.revision, y.revision)
  }

  /** The order of whole versions is total. */
  lemma {:induction false} VersionsPreordered(x: Version, y: Version, z: Version)
    requires CString(x.upstream) && CString(x.revision) && CString(y.upstream) && CString(y.revision)
    requires CString(z.upstream) && CString(z.revision)
    ensures VersionOrder(x, x) == 0 && VersionOrder(x, y) == -VersionOrder(y, x)
    ensures VersionOrder(x, y) <= 0 && VersionOrder(y, z) <= 0 ==> VersionOrder(x, z) <= 0
  {
    hide Policy;
    PolicyIsPreorder(x.upstream, y.upstream, z.upstream);
    PolicyIsPreorder(x.revision, y.revision, z.revision);
    PolicyIsPreorder(z.upstream, x.upstream, y.upstream);
    PolicyIsPreorder(y.upstream, z.upstream, x.upstream);
  }

  /** x is the earlier version: of two different epochs it has the smaller one, or else its upstream version is the earlier
      one, or else neither upstream version is and its revision is. */
  ghost predicate VersionEarlier(x: Version, y: Version) {
    || x.epoch < y.epoch
    || (x.epoch == y.epoch && Earlier(x.upstream, y.upstream))
    || (x.epoch == y.epoch && !Earlier(y.upstream, x.upstream) && Earlier(x.revision, y.revision))
  }

  /** The order of whole versions is that one. */
  lemma {:induction false} VersionOrderMeans(x: Version, y: Version)
    requires CString(x.upstream) && CString(x.revision) && CString(y.upstream) && CString(y.revision)
    ensures (VersionOrder(x, y) < 0 <==> VersionEarlier(x, y)) && (VersionOrder(x, y) > 0 <==> VersionEarlier(y, x))
  {
    hide Policy, Earlier;
    PolicyMeans(x.upstream, y.upstream);
    PolicyMeans(x.revision, y.revision);
  }

  method CutEpoch(s: seq<Byte>) returns (epoch: int, rest: seq<Byte>)
    ensures epoch == EpochOf(s) && rest == AfterEpoch(s)
  {
    hide Atoi;
    epoch, rest := 0, s;
    var colon := FirstOf(s, COLON, 0);
    if colon < |s| {
      epoch := Unsigned(Atoi(s));
      rest := s[colon + 1..];
    }
  }

  method CutRevision(s: seq<Byte>) returns (upstream: seq<Byte>, revision: seq<Byte>)
    ensures upstream == UpstreamOf(s) && revision == RevisionOf(s)
  {
    upstream, revision := s, [];
    var dash := AfterLast(s, DASH, |s|);
    if dash > 0 {
      revision := upstream[dash..];
      upstream := upstream[..dash - 1];
    }
  }

  /** version_compare, on the strings that the two numbers stand for. */
  method VersionCompare(ver1: seq<Byte>, ver2: seq<Byte>) returns (result: int)
    requires CString(ver1) && CString(ver2)
    ensures Sign(result) == Sign(VersionOrder(Split(ver1), Split(ver2)))
  {
    hide Policy, EpochOf, AfterEpoch, UpstreamOf, RevisionOf;
    var epoch1, ch1 := CutEpoch(ver1);
    var epoch2, ch2 := CutEpoch(ver2);
    ghost var v1, v2 := Split(ver1), Split(ver2);
    if epoch1 < epoch2 { return -1; }
    if epoch1 > epoch2 { return 1; }
    var upstream1, deb1 := CutRevision(ch1);
    var upstream2, deb2 := CutRevision(ch2);
    result := VersionComparePart(upstream1, upstream2);
    if result == 0 { result := VersionComparePart(deb1, deb2); }
  }

  datatype Operator = VerNull | VerEqual | VerLess | VerLessEqual | VerMore | VerMoreEqual | VerAny

  /** What a test asks of the order. */
  predicate Holds(c: int, op: Operator) {
    match op
    case VerNull => false
    case VerAny => true
    case VerEqual => c == 0
    case VerLess => c < 0
    case VerLessEqual => c <= 0
    case VerMore => c > 0
    case VerMoreEqual => c >= 0
  }

  /** What each test says of the two versions. */
  lemma {:induction false} HoldsMeans(x: Version, y: Version, op: Operator)
    requires CString(x.upstream) && CString(x.revision) && CString(y.upstream) && CString(y.revision)
    ensures op == VerLess ==> (Holds(VersionOrder(x, y), op) <==> VersionEarlier(x, y))
    ensures op == VerLessEqual ==> (Holds(VersionOrder(x, y), op) <==> !VersionEarlier(y, x))
    ensures op == VerEqual ==> (Holds(VersionOrder(x, y), op) <==> !VersionEarlier(x, y) && !VersionEarlier(y, x))
    ensures op == VerMoreEqual ==> (Holds(VersionOrder(x, y), op) <==> !VersionEarlier(x, y))
    ensures op == VerMore ==> (Holds(VersionOrder(x, y), op) <==> VersionEarlier(y, x))
    ensures (op == VerAny ==> Holds(VersionOrder(x, y), op)) && (op == VerNull ==> !Holds(VersionOrder(x, y), op))
  {
    hide VersionOrder, VersionEarlier;
    VersionOrderMeans(x, y);
  }

  lemma SplitStrings(s: seq<Byte>)
    requires CString(s)
    ensures CString(Split(s).upstream) && CString(Split(s).revision)
  {
  }

  /** test_version */
  method TestVersion(version1: seq<Byte>, version2: seq<Byte>, op: Operator) returns (yes: bool)
    requires CString(version1) && CString(version2)
    ensures yes <==> Holds(VersionOrder(Split(version1), Split(version2)), op)
    ensures op == VerLess ==> (yes <==> VersionEarlier(Split(version1), Split(version2)))
    ensures op == VerLessEqual ==> (yes <==> !VersionEarlier(Split(version2), Split(version1)))
    ensures op == VerEqual ==> (yes <==> !VersionEarlier(Split(version1), Split(version2)) && !VersionEarlier(Split(version2), Split(version1)))
    ensures op == VerMoreEqual ==> (yes <==> !VersionEarlier(Split(version1), Split(version2)))
    ensures op == VerMore ==> (yes <==> VersionEarlier(Split(version2), Split(version1)))
    ensures (op == VerAny ==> yes) && (op == VerNull ==> !yes)
  {
    hide VersionOrder, Split, VersionEarlier;
    var r := VersionCompare(version1, version2);
    match op {
      case VerAny => yes := true;
      case VerEqual => yes := r == 0;
      case VerLess => yes := r < 0;
      case VerLessEqual => yes := r <= 0;
      case VerMore => yes := r > 0;
      case VerMoreEqual => yes := r >= 0;
      case VerNull => yes := false;
    }
    SplitStrings(version1);
    SplitStrings(version2);
    HoldsMeans(Split(version1), Split(version2), op);
  }

  /** The tests fit together: exchanging the versions reverses a test, tests are complementary, and the order they ask
      for is transitive. */
  lemma {:induction false} TestsAgree(a: seq<Byte>, b: seq<Byte>, c: seq<Byte>)
    requires CString(a) && CString(b) && CString(c)
    ensures var x, y, z := Split(a), Split(b), Split(c);
            var xy, yx, yz, xz := VersionOrder(x, y), VersionOrder(y, x), VersionOrder(y, z), VersionOrder(x, z);
            && (Holds(xy, VerLessEqual) <==> Holds(xy, VerLess) || Holds(xy, VerEqual))
            && (Holds(xy, VerMoreEqual) <==> Holds(xy, VerMore) || Holds(xy, VerEqual))
            && (Holds(xy, VerMore) <==> !Holds(xy, VerLessEqual)) && (Holds(xy, VerLess) <==> !Holds(xy, VerMoreEqual))
            && Holds(xy, VerAny) && !Holds(xy, VerNull)
            && (Holds(xy, VerLess) <==> Holds(yx, VerMore)) && (Holds(xy, VerEqual) <==> Holds(yx, VerEqual))
            && (Holds(xy, VerLess) && Holds(yz, VerLess) ==> Holds(xz, VerLess))
            && (Holds(xy, VerEqual) && Holds(yz, VerEqual) ==> Holds(xz, VerEqual))
            && (Holds(xy, VerLessEqual) && Holds(yz, VerLessEqual) ==> Holds(xz, VerLessEqual))
  {
    hide VersionOrder, Split;
    var x, y, z := Split(a), Split(b), Split(c);
    VersionsPreordered(x, y, z);
    VersionsPreordered(z, x, y);
    VersionsPreordered(z, y, x);
    VersionsPreordered(y, z, x);
  }

  /** Equal epochs, and an upstream version that sorts first: the version is the lesser one. */
  lemma {:induction false} UpstreamDecides(a: seq<Byte>, b: seq<Byte>)
    requires CString(a) && CString(b) && Split(a).epoch == Split(b).epoch && Earlier(Split(a).upstream, Split(b).upstream)
    ensures Holds(VersionOrder(Split(a), Split(b)), VerLess) && !Holds(VersionOrder(Split(a), Split(b)), VerMore)
  {
    hide Split, Earlier, VersionOrder;
    VersionOrderMeans(Split(a), Split(b));
  }

  /** Versions that are plain numbers are compared as numbers. */
  lemma {:induction false} NumbersDecide(d: seq<Byte>, e: seq<Byte>)
    requires AllDigits(d) && AllDigits(e)
    ensures VersionEarlier(Split(d), Split(e)) <==> Num(d) < Num(e)
  {
    hide Earlier, Num, Split;
    SplitMeans([], d, []);
    SplitMeans([], e, []);
    DigitsDecide([], d, e);
    assert [] + d == d && [] + e == e;
    DigitsDecide([], e, d);
    EarlierEmpty();
  }
}
