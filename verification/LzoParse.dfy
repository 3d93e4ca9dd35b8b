/** The other direction of the grammar: what the decoder accepts is the encoding of a token. */
module LzoParse {
  import opened Bytes
  import opened LzoFormat
  import opened LzoDecode

  lemma {:induction false} ReadExtInverse(inp: seq<Byte>, ip: nat, acc: nat)
    requires ReadExt(inp, ip, acc).Count?
    ensures var c := ReadExt(inp, ip, acc); inp[ip..c.next] == Ext(c.n - acc)
    decreases |inp| - ip
  {
    if inp[ip] == 0 {
      ReadExtInverse(inp, ip + 1, acc + 255);
      var c := ReadExt(inp, ip, acc);
      assert inp[ip..c.next] == [0] + inp[ip + 1..c.next];
    }
  }

  /** A length opcode with its extension is the head of that length. */
  lemma {:induction false} LenInverse(inp: seq<Byte>, ip: nat, marker: Byte, max: nat)
    requires ip < |inp| && marker <= inp[ip] && 3 <= max && inp[ip] - marker <= max - 2 && marker + max < 256
    requires LenField(inp, ip + 1, inp[ip] - marker, max - 2).Count?
    ensures var c := LenField(inp, ip + 1, inp[ip] - marker, max - 2);
            inp[ip..c.next] == LenHead(marker, max, c.n + 2)
  {
    hide ReadExt;
    var c := LenField(inp, ip + 1, inp[ip] - marker, max - 2);
    if inp[ip] == marker {
      ReadExtInverse(inp, ip + 1, max - 2);
      assert inp[ip..c.next] == [marker] + inp[ip + 1..c.next];
    }
  }

  function FormAt(t: Byte, ctx: Context): Form {
    if t >= 64 then M2 else if t >= 32 then M3 else if t >= 16 then M4 else if ctx == AfterShort then M1 else M1Far
  }

  lemma {:induction false} RunInverse(inp: seq<Byte>, ip: nat, ctx: Context)
    requires ParseOp(inp, ip, ctx).Literals? && !(ctx == Start && inp[ip] > 17)
    ensures var o := ParseOp(inp, ip, ctx); o.n >= 4 && inp[ip..o.next] == RunHead(o.n) && inp[ip] < 16
  {
    hide ReadExt;
    var o := ParseOp(inp, ip, ctx);
    if inp[ip] == 0 {
      ReadExtInverse(inp, ip + 1, 15);
      assert inp[ip..o.next] == [0] + inp[ip + 1..o.next];
    }
  }

  lemma FieldParts(a: nat, b: nat, h: nat)
    requires a < 64 && b < 256 && h < 2
    ensures var d := a + b * 64 + h * 0x4000; d % 64 == a && d % 0x4000 / 64 == b && d / 0x4000 == h
  {
    var e := a + b * 64;
    assert e % 64 == a && e / 64 == b;
    if h == 1 { assert (e + 0x4000) % 64 == e % 64; }
  }

  lemma FieldInverse(b0: Byte, b1: Byte, h: nat)
    requires h < 2
    ensures var d := b0 / 4 + (b1 as int) * 64 + h * 0x4000;
            d % 64 * 4 + b0 % 4 == b0 && d % 0x4000 / 64 == b1 && d / 0x4000 == h
  {
    FieldParts(b0 / 4, b1, h);
  }

  lemma {:induction false} M3Inverse(inp: seq<Byte>, ip: nat, ctx: Context)
    requires ctx != Start && ParseOp(inp, ip, ctx).CopyOp? && 32 <= inp[ip] < 64
    ensures var o := ParseOp(inp, ip, ctx);
            && InRange(M3, o.len, o.off) && inp[ip..o.next - 2] == Prefix(M3, o.len, o.off)
            && inp[o.next - 2] == Low(M3, o.len, o.off) + inp[o.next - 2] % 4 && inp[o.next - 1] == High(M3, o.len, o.off)
  {
    hide LenField, LenHead;
    LenInverse(inp, ip, 32, M3_MAX_LEN);
    var o := ParseOp(inp, ip, ctx);
    FieldInverse(inp[o.next - 2], inp[o.next - 1], 0);
  }

  lemma {:induction false} M4Inverse(inp: seq<Byte>, ip: nat, ctx: Context)
    requires ctx != Start && ParseOp(inp, ip, ctx).CopyOp? && 16 <= inp[ip] < 32
    ensures var o := ParseOp(inp, ip, ctx);
            && InRange(M4, o.len, o.off) && inp[ip..o.next - 2] == Prefix(M4, o.len, o.off)
            && inp[o.next - 2] == Low(M4, o.len, o.off) + inp[o.next - 2] % 4 && inp[o.next - 1] == High(M4, o.len, o.off)
  {
    hide LenField, LenHead;
    LenInverse(inp, ip, 16 + inp[ip] / 8 % 2 * 8, M4_MAX_LEN);
    var o := ParseOp(inp, ip, ctx);
    FieldInverse(inp[o.next - 2], inp[o.next - 1], inp[ip] / 8 % 2);
  }

  lemma {:induction false} NearInverse(inp: seq<Byte>, ip: nat, ctx: Context)
    requires ctx != Start && ParseOp(inp, ip, ctx).CopyOp? && (inp[ip] < 16 || 64 <= inp[ip])
    ensures var o, form := ParseOp(inp, ip, ctx), FormAt(inp[ip], ctx);
            && InRange(form, o.len, o.off) && o.next == ip + 2 && Allowed(ctx, form)
            && inp[ip] == Low(form, o.len, o.off) + inp[ip] % 4 && inp[ip + 1] == High(form, o.len, o.off)
  {
    hide LenField, Allowed;
    var t, u: int := inp[ip], inp[ip + 1];
    Digits(t / 4 % 8, u, 8);
    Digits(t / 4 % 4, u, 4);
    if t >= 64 {
      assert t == (t / 32) * 32 + t / 4 % 8 * 4 + t % 4;
    } else {
      assert t / 4 % 4 == t / 4;
    }
    assert Allowed(ctx, FormAt(inp[ip], ctx)) by { NearAllowed(inp, ip, ctx); }
  }

  lemma NearAllowed(inp: seq<Byte>, ip: nat, ctx: Context)
    requires ctx != Start && ParseOp(inp, ip, ctx).CopyOp? && (inp[ip] < 16 || 64 <= inp[ip])
    ensures Allowed(ctx, FormAt(inp[ip], ctx))
  {
    hide LenField;
  }

  lemma Digits(a: nat, u: nat, k: nat)
    requires a < k && (k == 4 || k == 8)
    ensures (a + u * k) % k == a && (a + u * k) / k == u
  {
  }

  /** A copy opcode is the head of a match in the form its first byte tells. */
  lemma {:induction false} MatchInverse(inp: seq<Byte>, ip: nat, ctx: Context)
    requires ctx != Start && ParseOp(inp, ip, ctx).CopyOp?
    ensures var o, form := ParseOp(inp, ip, ctx), FormAt(inp[ip], ctx);
            InRange(form, o.len, o.off) && Allowed(ctx, form) && inp[ip..o.next] == MatchHead(form, o.len, o.off, inp[o.next - 2] % 4)
  {
    hide ParseOp, Low, High, Prefix, InRange;
    var o, form := ParseOp(inp, ip, ctx), FormAt(inp[ip], ctx);
    if 32 <= inp[ip] < 64 {
      M3Inverse(inp, ip, ctx);
    } else if 16 <= inp[ip] < 32 {
      M4Inverse(inp, ip, ctx);
    } else {
      NearInverse(inp, ip, ctx);
      assert inp[ip..o.next - 2] == [];
      assert Prefix(form, o.len, o.off) == [] by { NearPrefix(form, o.len, o.off); }
    }
    assert inp[ip..o.next] == inp[ip..o.next - 2] + [inp[o.next - 2], inp[o.next - 1]];
  }

  lemma NearPrefix(form: Form, len: nat, off: nat)
    requires InRange(form, len, off) && !form.M3? && !form.M4?
    ensures Prefix(form, len, off) == []
  {
  }
}
