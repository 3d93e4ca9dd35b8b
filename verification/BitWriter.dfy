/** The output side of gzip: a byte buffer that is written out when full, and a 16-bit buffer for single bits. */
module BitWriter {
  import opened Arithmetic
  import opened Bytes
  import opened BitSeq

  const OUTBUFSIZ := 8192
  const BUF_SIZE := 16

  /** The zero bits that fill up the last byte of n bits. */
  function Padding(n: nat): (r: seq<Bit>)
    ensures (n + |r|) % 8 == 0 && |r| < 8
  {
    LowBits(0, (8 - n % 8) % 8)
  }

  lemma Pow2Sixteen()
    ensures Pow2(16) == 0x10000
  {
    assert Pow2(4) == 16;
    Pow2Add(4, 4);
    Pow2Add(8, 8);
  }

  /** v << k */
  function Shl(v: nat, k: nat): nat {
    v * Pow2(k)
  }

  lemma Regroup(a: seq<Bit>, x: seq<Bit>, y: seq<Bit>, p: seq<Bit>, q: seq<Bit>)
    requires x + y == p + q
    ensures a + x + y == a + p + q
  {
    assert a + x + y == a + (x + y);
    assert a + p + q == a + (p + q);
  }

  /** Truncation to n bits keeps the n low bits. */
  lemma {:induction false} LowBitsMod(x: nat, q: nat, r: nat, n: nat)
    requires x == r + q * Pow2(n) && r < Pow2(n)
    ensures LowBits(x, n) == LowBits(r, n)
  {
    LowBitsJoin(r, q, n, 0);
  }

  /** A 16-bit word is sent as its two bytes. */
  lemma {:induction false} WordBits(w: nat, lo: Byte, hi: Byte)
    requires w == lo as nat + 256 * (hi as nat)
    ensures BytesToBits([lo, hi]) == LowBits(w, 16)
  {
    assert Pow2(8) == 256 by { assert Pow2(4) == 16; Pow2Add(4, 4); }
    LowBitsJoin(lo as nat, hi as nat, 8, 8);
    assert [lo, hi] == [lo] + [hi];
    BytesToBitsAppend([lo], [hi]);
    OneByte(lo);
    OneByte(hi);
  }

  lemma OneByte(b: Byte)
    ensures BytesToBits([b]) == LowBits(b as nat, 8)
  {
    assert [b][..0] == [];
    assert BytesToBits([]) == [];
  }

  /** Adding `length` bits above `valid` bits, when the sum exceeds 16: a full word and the rest. */
  lemma {:induction false} SplitWord(buf: nat, valid: nat, value: nat, length: nat)
    requires valid <= 16 && length <= 16 < valid + length && buf < Pow2(valid) && value < Pow2(length)
    ensures var w := (buf + Shl(value, valid)) % 0x10000;
            LowBits(w, 16) + LowBits(Shr(value, 16 - valid), valid + length - 16) == LowBits(buf, valid) + LowBits(value, length)
    ensures Shr(value, 16 - valid) < Pow2(valid + length - 16)
  {
    hide Pow2, Shr, LowBits;
    var x := buf + Shl(value, valid);
    var k := 16 - valid;
    Pow2Sixteen();
    LowBitsMod(x, x / 0x10000, x % 0x10000, 16);
    LowBitsJoin(buf, value, valid, k);
    LowBitsSplit(value, k, length - k);
    ShrFits(value, length, k);
  }

  /** Without overflow the value fits above the bits that are there. */
  lemma {:induction false} JoinFits(buf: nat, valid: nat, value: nat, length: nat)
    requires valid + length <= 16 && buf < Pow2(valid) && value < Pow2(length)
    ensures buf + Shl(value, valid) < Pow2(valid + length) <= 0x10000
    ensures LowBits(buf + Shl(value, valid), valid + length) == LowBits(buf, valid) + LowBits(value, length)
  {
    hide Pow2;
    LowBitsJoin(buf, value, valid, length);
    Pow2Add(length, valid);
    var p := Pow2(valid);
    Distribute(value, 1, p);
    MulLe(value + 1, Pow2(length), p);
    Pow2Mono(valid + length, 16);
    Pow2Sixteen();
  }

  class Writer {
    var written: seq<Byte>      // what has been given to the output file
    const outbuf: array<Byte>
    var outcnt: nat
    var biBuf: nat
    var biValid: nat

    ghost predicate Valid()
      reads this
    {
      outbuf.Length == OUTBUFSIZ && outcnt < OUTBUFSIZ && biValid <= BUF_SIZE && biBuf < Pow2(biValid)
    }

    /** All bytes of the output so far. */
    ghost function Out(): seq<Byte>
      requires outcnt <= outbuf.Length
      reads this`written, this`outcnt, outbuf
    {
      written + outbuf[..outcnt]
    }

    /** All bits sent so far. */
    ghost function Bits(): seq<Bit>
      requires Valid()
      reads this, outbuf
    {
      BytesToBits(Out()) + LowBits(biBuf, biValid)
    }

    /** bi_init */
    constructor ()
      ensures Valid() && Out() == [] && Bits() == [] && fresh(outbuf)
    {
      written, outcnt, biBuf, biValid := [], 0, 0, 0;
      outbuf := new Byte[OUTBUFSIZ](_ => 0);
    }

    /** flush_outbuf */
    method FlushOutbuf()
      requires outbuf.Length == OUTBUFSIZ && outcnt <= OUTBUFSIZ
      modifies this`written, this`outcnt
      ensures outcnt == 0 && written == old(written + outbuf[..outcnt])
    {
      if outcnt == 0 { return; }
      written := written + outbuf[..outcnt];
      outcnt := 0;
    }

    /** put_8bit */
    method Put8(c: Byte)
      requires Valid()
      modifies this`written, this`outcnt, outbuf
      ensures Valid() && Out() == old(Out()) + [c]
    {
      hide Pow2;
      outbuf[outcnt] := c;
      outcnt := outcnt + 1;
      assert outbuf[..outcnt] == old(outbuf[..outcnt]) + [c];
      if outcnt == OUTBUFSIZ { FlushOutbuf(); }
    }

    /** put_16bit: low byte first. */
    method Put16(w: nat)
      requires Valid() && w < 0x10000
      modifies this`written, this`outcnt, outbuf
      ensures Valid() && Out() == old(Out()) + [(w % 256) as Byte, (w / 256) as Byte]
      ensures BytesToBits(Out()) == old(BytesToBits(Out())) + LowBits(w, 16)
    {
      hide Pow2, BytesToBits, LowBits;
      var lo, hi := (w % 256) as Byte, (w / 256) as Byte;
      if outcnt < OUTBUFSIZ - 2 {
        outbuf[outcnt] := lo;
        outbuf[outcnt + 1] := hi;
        outcnt := outcnt + 2;
        assert outbuf[..outcnt] == old(outbuf[..outcnt]) + [lo, hi];
      } else {
        Put8(lo);
        Put8(hi);
      }
      WordBits(w, lo, hi);
      BytesToBitsAppend(old(Out()), [lo, hi]);
    }

    /** send_bits.  The bits of the buffer above `biValid` are zero, so that `|` is an addition. */
    method SendBits(value: nat, length: nat)
      requires Valid() && length <= 16 && value < Pow2(length)
      modifies this, outbuf
      ensures Valid() && Bits() == old(Bits()) + LowBits(value, length)
    {
      hide Pow2, BytesToBits, LowBits, Shr, Shl, Out;
      if biValid > BUF_SIZE - length {
        SplitWord(biBuf, biValid, value, length);
        var w := (biBuf + Shl(value, biValid)) % 0x10000;
        Regroup(BytesToBits(Out()), LowBits(w, 16), LowBits(Shr(value, 16 - biValid), biValid + length - 16), LowBits(biBuf, biValid), LowBits(value, length));
        Put16(w);
        biBuf := Shr(value, BUF_SIZE - biValid);
        biValid := biValid + length - BUF_SIZE;
      } else {
        JoinFits(biBuf, biValid, value, length);
        biBuf := biBuf + Shl(value, biValid);
        biValid := biValid + length;
      }
    }

    /** bi_windup */
    method BiWindup()
      requires Valid()
      modifies this, outbuf
      ensures Valid() && outcnt <= outbuf.Length && biValid == 0 && Bits() == BytesToBits(Out()) == old(Bits()) + Padding(|old(Bits())|)
    {
      hide Pow2, BytesToBits, LowBits;
      ghost var v, n := biBuf, biValid;
      ghost var before := BytesToBits(Out());
      Fits16(v, n);
      assert LowBits(v, 0) == [];
      if biValid > 8 {
        PadTo(v, n, 16);
        Put16(biBuf);
      } else if biValid > 0 {
        PadTo(v, n, 8);
        OneByte(biBuf as Byte);
        BytesToBitsAppend(Out(), [biBuf as Byte]);
        Put8(biBuf as Byte);
      }
      biBuf := 0;
      biValid := 0;
      assert LowBits(0, 0) == [] && Pow2(0) == 1 by { Empties(); }
    }

    /** copy_block: align, and copy the bytes, after their number and its complement if `header`. */
    method CopyBlock(buf: seq<Byte>, header: bool)
      requires Valid()
      modifies this, outbuf
      ensures Valid() && biValid == 0
      ensures Bits() == old(Bits()) + Padding(|old(Bits())|) + StoredHeader(|buf|, header) + BytesToBits(buf)
    {
      hide Pow2, LowBits, Padding, BytesToBits, Out;
      BiWindup();
      if header {
        var len := |buf| % 0x10000;
        Put16(len);
        Put16(0xffff - len);
      }
      assert BytesToBits(Out()) == old(Bits()) + Padding(|old(Bits())|) + StoredHeader(|buf|, header);
      BytesToBitsAppend(Out(), buf);
      PutAll(buf);
      assert LowBits(biBuf, 0) == [];
    }

    method PutAll(buf: seq<Byte>)
      requires Valid()
      modifies this`written, this`outcnt, outbuf
      ensures Valid() && Out() == old(Out()) + buf
    {
      hide Pow2, Out;
      var i := 0;
      while i < |buf|
        invariant 0 <= i <= |buf| && Valid() && Out() == old(Out()) + buf[..i]
      {
        Put8(buf[i]);
        i := i + 1;
        assert buf[..i] == buf[..i - 1] + [buf[i - 1]];
      }
      assert buf[..|buf|] == buf;
    }
  }

  /** LEN and NLEN of a stored block (section 3.2.4 of RFC 1951). */
  function StoredHeader(len: nat, header: bool): seq<Bit> {
    if header then LowBits(len % 0x10000, 16) + LowBits(0xffff - len % 0x10000, 16) else []
  }

  lemma Empties()
    ensures LowBits(0, 0) == [] && Pow2(0) == 1
  {
  }

  lemma Fits16(v: nat, n: nat)
    requires n <= 16 && v < Pow2(n)
    ensures v < 0x10000 && (n <= 8 ==> v < 256)
  {
    Pow2Mono(n, 16);
    Pow2Sixteen();
    if n <= 8 {
      Pow2Mono(n, 8);
      assert Pow2(4) == 16;
      Pow2Add(4, 4);
    }
  }

  /** Sending a number with more bits than it needs adds zeros. */
  lemma {:induction false} PadTo(v: nat, n: nat, m: nat)
    requires n <= m && v < Pow2(n)
    ensures LowBits(v, m) == LowBits(v, n) + LowBits(0, m - n)
  {
    LowBitsJoin(v, 0, n, m - n);
  }
}
