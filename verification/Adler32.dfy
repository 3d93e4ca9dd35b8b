/** The Adler-32 checksum of section 8.2 of RFC 1950, as lzop computes it: the two sums run on for up to
    5552 bytes before they are reduced. */
module Adler32 {
  import opened Arithmetic
  import opened Bytes

  const BASE := 65521
  const NMAX := 5552

  type U32 = x: int | 0 <= x < 0x1_0000_0000

  datatype Sums = Sums(s1: nat, s2: nat)

  /** One byte, reduced at once. */
  function Add(s: Sums, b: Byte): Sums {
    var s1 := (s.s1 + b) % BASE;
    Sums(s1, (s.s2 + s1) % BASE)
  }

  function AddAll(s: Sums, bytes: seq<Byte>): Sums
    decreases |bytes|
  {
    if bytes == [] then s else AddAll(Add(s, bytes[0]), bytes[1..])
  }

  function Unpack(adler: U32): Sums {
    Sums(adler % 0x10000, adler / 0x10000)
  }

  function Pack(s: Sums): int {
    s.s2 * 0x10000 + s.s1
  }

  /** The checksum by definition. */
  function Checksum(adler: U32, bytes: seq<Byte>): int {
    Pack(AddAll(Unpack(adler), bytes))
  }

  lemma {:induction false} AddAllAppend(s: Sums, x: seq<Byte>, y: seq<Byte>)
    ensures AddAll(s, x + y) == AddAll(AddAll(s, x), y)
    decreases |x|
  {
    if x == [] {
      assert x + y == y;
    } else {
      assert (x + y)[1..] == x[1..] + y;
      AddAllAppend(Add(s, x[0]), x[1..], y);
    }
  }

  lemma {:induction false} AddAllReduced(s: Sums, x: seq<Byte>)
    requires x != []
    ensures AddAll(s, x).s1 < BASE && AddAll(s, x).s2 < BASE
    decreases |x|
  {
    if |x| > 1 {
      AddAllReduced(Add(s, x[0]), x[1..]);
    } else {
      assert x[1..] == [];
    }
  }

  /** Feeding the pieces of a message one after the other gives the checksum of the whole. */
  lemma {:induction false} ChecksumComposes(adler: U32, x: seq<Byte>, y: seq<Byte>)
    ensures 0 <= Checksum(adler, x) < 0x1_0000_0000
    ensures Checksum(Checksum(adler, x), y) == Checksum(adler, x + y)
  {
    AddAllAppend(Unpack(adler), x, y);
    if x != [] { AddAllReduced(Unpack(adler), x); }
    var s := AddAll(Unpack(adler), x);
    assert Unpack(Pack(s)) == s;
  }

  // ---------- deferred reduction ----------

  function Sum1(s: Sums, bytes: seq<Byte>): nat {
    if bytes == [] then s.s1 else Sum1(s, bytes[..|bytes| - 1]) + bytes[|bytes| - 1]
  }

  function Sum2(s: Sums, bytes: seq<Byte>): nat {
    if bytes == [] then s.s2 else Sum2(s, bytes[..|bytes| - 1]) + Sum1(s, bytes)
  }

  lemma ModAdd(a: nat, b: nat)
    ensures (a % BASE + b) % BASE == (a + b) % BASE && (a + b % BASE) % BASE == (a + b) % BASE
  {
    var q := a / BASE;
    assert a == q * BASE + a % BASE;
    AddMultiple(a % BASE + b, BASE, q);
    var p := b / BASE;
    assert b == p * BASE + b % BASE;
    AddMultiple(a + b % BASE, BASE, p);
  }

  lemma SumsStep(s: Sums, bytes: seq<Byte>)
    requires bytes != []
    ensures var init, last := bytes[..|bytes| - 1], bytes[|bytes| - 1];
            Sum1(s, bytes) == Sum1(s, init) + last && Sum2(s, bytes) == Sum2(s, init) + Sum1(s, bytes)
  {
  }

  /** Reducing once at the end of a chunk is the same as reducing after every byte. */
  lemma {:induction false} Deferred(s: Sums, bytes: seq<Byte>)
    requires bytes != []
    ensures AddAll(s, bytes) == Sums(Sum1(s, bytes) % BASE, Sum2(s, bytes) % BASE)
    decreases |bytes|
  {
    var n := |bytes| - 1;
    var init, last := bytes[..n], bytes[n];
    assert bytes == init + [last];
    AddAllAppend(s, init, [last]);
    var t := AddAll(s, init);
    assert AddAll(t, [last]) == Add(t, last) by { assert [last][1..] == []; }
    if init != [] { Deferred(s, init); }
    OneMore(s, bytes, t);
  }

  lemma NoSums(s: Sums)
    ensures Sum1(s, []) == s.s1 && Sum2(s, []) == s.s2
  {
  }

  lemma {:induction false} OneMore(s: Sums, bytes: seq<Byte>, t: Sums)
    requires bytes != [] && var init := bytes[..|bytes| - 1];
             if init == [] then t == s else t == Sums(Sum1(s, init) % BASE, Sum2(s, init) % BASE)
    ensures Add(t, bytes[|bytes| - 1]) == Sums(Sum1(s, bytes) % BASE, Sum2(s, bytes) % BASE)
  {
    hide Sum1, Sum2, Add;
    var init, last := bytes[..|bytes| - 1], bytes[|bytes| - 1];
    SumsStep(s, bytes);
    NoSums(s);
    if init != [] { AddReduced(Sum1(s, init), Sum2(s, init), last); } else { AddPlain(s, last); }
  }

  lemma AddPlain(s: Sums, b: Byte)
    ensures Add(s, b) == Sums((s.s1 + b) % BASE, (s.s2 + (s.s1 + b)) % BASE)
  {
    ModAdd(s.s2, s.s1 + b);
  }

  lemma AddReduced(x: nat, y: nat, b: Byte)
    ensures Add(Sums(x % BASE, y % BASE), b) == Sums((x + b) % BASE, (y + (x + b)) % BASE)
  {
    ModAdd(x, b);
    ModAdd(y % BASE, x + b);
    ModAdd(y, x + b);
  }

  lemma {:induction false} Bound1(s: Sums, bytes: seq<Byte>)
    ensures Sum1(s, bytes) <= s.s1 + 255 * |bytes|
    decreases |bytes|
  {
    if bytes != [] { Bound1(s, bytes[..|bytes| - 1]); }
  }

  /** The running sums of one chunk fit in 32 bits, even when the incoming halves are not reduced. */
  lemma {:induction false} Bound2(s: Sums, bytes: seq<Byte>)
    ensures 2 * Sum2(s, bytes) <= 2 * s.s2 + 2 * (s.s1 * |bytes|) + 255 * (|bytes| * (|bytes| + 1))
    decreases |bytes|
  {
    if bytes != [] {
      var n := |bytes|;
      Bound2(s, bytes[..n - 1]);
      Bound1(s, bytes);
      assert s.s1 * n == s.s1 * (n - 1) + s.s1;
      assert n * (n + 1) == (n - 1) * n + 2 * n;
    }
  }

  lemma ChunkFits(s: Sums, bytes: seq<Byte>)
    requires s.s1 < 0x10000 && s.s2 < 0x10000 && |bytes| <= NMAX
    ensures Sum1(s, bytes) < 0x1_0000_0000 && Sum2(s, bytes) < 0x1_0000_0000
  {
    var n := |bytes|;
    Bound1(s, bytes);
    Bound2(s, bytes);
    Product(s.s1, n, 0xffff, NMAX);
    Product(n, n + 1, NMAX, NMAX + 1);
  }

  lemma Product(a: nat, b: nat, c: nat, d: nat)
    requires a <= c && b <= d
    ensures a * b <= c * d
  {
    assert a * b <= c * b && c * b <= c * d;
  }

  // ---------- the checksum in closed form ----------

  /** The sum of all bytes. */
  function Total(b: seq<Byte>): nat {
    if b == [] then 0 else b[0] + Total(b[1..])
  }

  /** The sum of (n - i) * b[i]: every byte counts once for each byte from its place to the end. */
  function Weighted(b: seq<Byte>): nat {
    if b == [] then 0 else |b| * b[0] + Weighted(b[1..])
  }

  lemma {:induction false} SumsSnoc(b: seq<Byte>, c: Byte)
    ensures Total(b + [c]) == Total(b) + c && Weighted(b + [c]) == Weighted(b) + Total(b) + c
    decreases |b|
  {
    if b == [] {
      assert (b + [c])[1..] == [] && |b + [c]| * c == c;
    } else {
      assert (b + [c])[1..] == b[1..] + [c];
      SumsSnoc(b[1..], c);
      var n := |b|;
      assert (n + 1) * b[0] == n * b[0] + b[0];
    }
  }

  /** The two sums without any reduction. */
  lemma {:induction false} PlainSums(s: Sums, b: seq<Byte>)
    ensures Sum1(s, b) == s.s1 + Total(b) && Sum2(s, b) == s.s2 + |b| * s.s1 + Weighted(b)
    decreases |b|
  {
    if b != [] {
      hide Total, Weighted, Sum1, Sum2;
      var n := |b| - 1;
      var init, last := b[..n], b[n];
      assert b == init + [last];
      PlainSums(s, init);
      SumsSnoc(init, last);
      SumsStep(s, b);
      Distribute(n, 1, s.s1);
    }
  }

  /** What section 8.2 of RFC 1950 says of both halves of the checksum: sums modulo 65521, the second one in the upper
      sixteen bits. */
  lemma {:induction false} ChecksumMeans(adler: U32, b: seq<Byte>)
    requires b != []
    ensures Checksum(adler, b) % 0x10000 == (adler % 0x10000 + Total(b)) % 65521
    ensures Checksum(adler, b) / 0x10000 == (adler / 0x10000 + |b| * (adler % 0x10000) + Weighted(b)) % 65521
  {
    hide AddAll, Sum1, Sum2, Total, Weighted;
    var s := Unpack(adler);
    Deferred(s, b);
    PlainSums(s, b);
    var t := AddAll(s, b);
    assert t.s1 < 65521 && t.s2 < 65521;
    Halves(t.s1, t.s2);
  }

  lemma Halves(a: nat, b: nat)
    requires a < 0x10000
    ensures (b * 0x10000 + a) % 0x10000 == a && (b * 0x10000 + a) / 0x10000 == b
  {
  }

  datatype Buffer = Null | Data(bytes: seq<Byte>)

  method Chunk(bytes: seq<Byte>, from: nat, k: nat, a1: U32, a2: U32) returns (s1: U32, s2: U32)
    requires from + k <= |bytes| && k <= NMAX && a1 < 0x10000 && a2 < 0x10000
    ensures s1 == Sum1(Sums(a1, a2), bytes[from..from + k]) && s2 == Sum2(Sums(a1, a2), bytes[from..from + k])
  {
    ghost var s := Sums(a1, a2);
    s1, s2 := a1, a2;
    for i := 0 to k
      invariant s1 == Sum1(s, bytes[from..from + i]) && s2 == Sum2(s, bytes[from..from + i])
    {
      ChunkFits(s, bytes[from..from + i + 1]);
      assert bytes[from..from + i + 1][..i] == bytes[from..from + i];
      s1 := s1 + bytes[from + i];
      s2 := s2 + s1;
    }
  }

  /** lzo_adler32.  Every intermediate value is a 32-bit number. */
  method Compute(adler: U32, buf: Buffer) returns (r: U32)
    ensures r == if buf.Null? then 1 else Checksum(adler, buf.bytes)
    ensures buf.Data? && buf.bytes == [] ==> r == adler
    ensures buf.Data? && buf.bytes != [] ==> r % 0x10000 == (adler % 0x10000 + Total(buf.bytes)) % 65521
    ensures buf.Data? && buf.bytes != [] ==>
              r / 0x10000 == (adler / 0x10000 + |buf.bytes| * (adler % 0x10000) + Weighted(buf.bytes)) % 65521
  {
    if buf.Null? { return 1; }
    var bytes := buf.bytes;
    var s1: U32, s2: U32 := adler % 0x10000, adler / 0x10000;
    ghost var start := Sums(s1, s2);
    var i := 0;
    while i < |bytes|
      invariant i <= |bytes| && s1 < 0x10000 && s2 < 0x10000
      invariant Sums(s1, s2) == AddAll(start, bytes[..i])
    {
      var k := if |bytes| - i < NMAX then |bytes| - i else NMAX;
      ghost var piece := bytes[i..i + k];
      Deferred(Sums(s1, s2), piece);
      AddAllAppend(start, bytes[..i], piece);
      assert bytes[..i] + piece == bytes[..i + k];
      s1, s2 := Chunk(bytes, i, k, s1, s2);
      s1, s2 := s1 % BASE, s2 % BASE;
      i := i + k;
    }
    assert bytes[..i] == bytes;
    if bytes != [] { ChecksumMeans(adler, bytes); }
    r := s2 * 0x10000 + s1;
  }
}
