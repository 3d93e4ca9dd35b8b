/** Bytes, the copy from earlier output that all decoders share, and the few bit operations the codecs use. */
module Bytes {

  type Byte = b: int | 0 <= b < 256

  /** `b | t` for a value `t` that only has bits 0 and 1. */
  function OrLow2(b: Byte, t: nat): (r: Byte)
    requires t < 4
    ensures r / 4 == b / 4
    ensures b % 4 == 0 ==> r == b + t
  {
    var lo := b % 4;
    b - lo + (if lo == 0 || lo == t then t else if t == 0 then lo else 3)
  }

  /** Copy `len` bytes from `off` back; the source may overlap what is being written. */
  function Copy(out: seq<Byte>, off: nat, len: nat): (r: seq<Byte>)
    requires 1 <= off <= |out|
    ensures |r| == |out| + len && r[..|out|] == out
    decreases len
  {
    if len == 0 then out else Copy(out + [out[|out| - off]], off, len - 1)
  }

  lemma CopyFirst(out: seq<Byte>, off: nat, len: nat)
    requires 1 <= off <= |out| && len > 0
    ensures Copy(out, off, len)[|out|] == out[|out| - off]
  {
    var more := out + [out[|out| - off]];
    var r := Copy(more, off, len - 1);
    assert r[..|more|] == more;
    assert r[|out|] == r[..|more|][|out|];
  }

  /** `Copy` is the only extension whose new bytes repeat the ones `off` back. */
  lemma {:induction false} CopyUnique(s: seq<Byte>, p: nat, off: nat, len: nat)
    requires 1 <= off <= p && p + len <= |s|
    ensures Copy(s[..p], off, len) == s[..p + len]
      <==> forall k :: p <= k < p + len ==> s[k] == s[k - off]
    decreases len
  {
    if len > 0 {
      if s[p] == s[p - off] {
        assert s[..p] + [s[..p][p - off]] == s[..p + 1];
        CopyUnique(s, p + 1, off, len - 1);
      } else {
        CopyFirst(s[..p], off, len);
        assert s[..p][p - off] == s[p - off];
        assert s[..p + len][p] == s[p];
      }
    }
  }

  /** Four pieces that fit together. */
  lemma Glue<T>(w: seq<T>, end: nat, p: seq<T>, q: seq<T>, r: seq<T>, t: seq<T>)
    requires end <= |w| && end == |p| + |q| + |r| + |t|
    requires w[..|p|] == p && w[|p|..|p| + |q|] == q
    requires w[|p| + |q|..|p| + |q| + |r|] == r && w[|p| + |q| + |r|..end] == t
    ensures w[..end] == p + (q + (r + t))
  {
  }

  /** All bytes are the same. */
  predicate Uniform(s: seq<Byte>) {
    forall i :: 0 <= i < |s| ==> s[i] == s[0]
  }

  function Xor1(a: nat, b: nat): (r: nat)
    requires a < 2 && b < 2
    ensures r < 2
  {
    if a == b then 0 else 1
  }

  /** Exclusive or of two three-bit numbers. */
  function Xor3(a: nat, b: nat): (r: nat)
    requires a < 8 && b < 8
    ensures r < 8
  {
    Xor1(a % 2, b % 2) + 2 * Xor1(a / 2 % 2, b / 2 % 2) + 4 * Xor1(a / 4, b / 4)
  }

  lemma Xor3Zero(a: nat)
    requires a < 8
    ensures Xor3(a, 0) == a
  {
    var zero := 0;
    assert Xor3(a, zero) == a % 2 + 2 * (a / 2 % 2) + 4 * (a / 4);
  }

  lemma Xor3Injective(a: nat, b: nat, c: nat)
    requires a < 8 && b < 8 && c < 8 && Xor3(a, b) == Xor3(a, c)
    ensures b == c
  {
    hide Xor1;
    Bits(Xor1(a % 2, b % 2), Xor1(a / 2 % 2, b / 2 % 2), Xor1(a / 4, b / 4),
         Xor1(a % 2, c % 2), Xor1(a / 2 % 2, c / 2 % 2), Xor1(a / 4, c / 4));
    Xor1Injective(a % 2, b % 2, c % 2);
    Xor1Injective(a / 2 % 2, b / 2 % 2, c / 2 % 2);
    Xor1Injective(a / 4, b / 4, c / 4);
  }

  lemma Xor1Injective(a: nat, b: nat, c: nat)
    requires a < 2 && b < 2 && c < 2 && Xor1(a, b) == Xor1(a, c)
    ensures b == c
  {
  }

  lemma Bits(a: nat, b: nat, c: nat, a': nat, b': nat, c': nat)
    requires a < 2 && b < 2 && c < 2 && a' < 2 && b' < 2 && c' < 2
    requires a + 2 * b + 4 * c == a' + 2 * b' + 4 * c'
    ensures a == a' && b == b' && c == c'
  {
  }

  /** `(a << 5) ^ c` for a byte c: only its three high bits meet bits of `a`. */
  function ShiftXor(a: nat, c: Byte): (r: nat)
    ensures 256 * (a / 8) <= r < 256 * (a / 8) + 256
  {
    256 * (a / 8) + 32 * Xor3(a % 8, c / 32) + c % 32
  }

  lemma ShiftXorInjective(a: nat, b: Byte, c: Byte)
    requires ShiftXor(a, b) == ShiftXor(a, c)
    ensures b == c
  {
    hide Xor3;
    Xor3Injective(a % 8, b / 32, c / 32);
  }
}
