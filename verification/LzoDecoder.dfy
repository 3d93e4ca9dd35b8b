/** The decoder as the array program it is.  Input and output may be the same array, as when
    a block is read into the tail of the buffer it is then decoded into. */
module LzoDecoder {
  import opened Bytes
  import opened LzoFormat
  import opened LzoDecode

  /** With the input at offset `base` of the buffer that is being written from its start: no byte is
      overwritten before its last read.  The last reads are the literals, the next opcode, and the byte
      two before the end of a match opcode, which is looked at after the match has been copied. */
  predicate StaysAhead(inp: seq<Byte>, ip: nat, ctx: Context, out: seq<Byte>, cap: nat, base: nat)
    decreases |inp| - ip
  {
    match Step(inp, ip, ctx, out, cap)
    case Done(_) => StepClear(inp, ip, ctx, out, cap, base)
    case More(ip', ctx', out') =>
      StepClear(inp, ip, ctx, out, cap, base) && StaysAhead(inp, ip', ctx', out', cap, base)
  }

  predicate StepClear(inp: seq<Byte>, ip: nat, ctx: Context, out: seq<Byte>, cap: nat, base: nat) {
    |out| <= base + ip &&
    var o := ParseOp(inp, ip, ctx);
    o.CopyOp? && o.off <= |out| && |out| + o.len <= cap ==> |out| + o.len <= base + o.next - 2
  }

  /** The literal copy loops. */
  method CopyLiterals(src: array<Byte>, from: nat, dst: array<Byte>, to: nat, n: nat)
    requires from + n <= src.Length && to + n <= dst.Length
    requires src == dst ==> to <= from
    modifies dst
    ensures dst[to..to + n] == old(src[from..from + n])
    ensures forall k :: 0 <= k < to || to + n <= k < dst.Length ==> dst[k] == old(dst[k])
  {
    ghost var lits := src[from..from + n];
    for i := 0 to n
      invariant forall k :: 0 <= k < to || to + i <= k < dst.Length ==> dst[k] == old(dst[k])
      invariant forall k :: to <= k < to + i ==> dst[k] == lits[k - to]
      invariant forall k :: from + i <= k < from + n ==> src[k] == lits[k - from]
    {
      dst[to + i] := src[from + i];
    }
  }

  /** The match copy loops: one byte at a time, so that a short distance repeats itself. */
  method CopyBack(dst: array<Byte>, op: nat, off: nat, len: nat)
    requires 1 <= off <= op && op + len <= dst.Length
    modifies dst
    ensures dst[..op + len] == Copy(old(dst[..op]), off, len)
    ensures forall k :: op + len <= k < dst.Length ==> dst[k] == old(dst[k])
  {
    for i := 0 to len
      invariant forall k :: 0 <= k < op || op + i <= k < dst.Length ==> dst[k] == old(dst[k])
      invariant forall k :: op <= k < op + i ==> dst[k] == dst[k - off]
    {
      dst[op + i] := dst[op + i - off];
    }
    CopyUnique(dst[..], op, off, len);
    assert dst[..][..op] == old(dst[..op]);
    assert dst[..][..op + len] == dst[..op + len];
  }

  /** The input bytes from position `ip` on are still what they were. */
  ghost predicate Unread(src: array<Byte>, base: nat, inp: seq<Byte>, ip: nat)
    reads src
  {
    base + |inp| <= src.Length && forall k :: ip <= k < |inp| ==> src[base + k] == inp[k]
  }

  /** The loop that adds 255 for every zero byte. */
  method ReadExtension(src: array<Byte>, base: nat, n: nat, start: nat, acc: nat, ghost inp: seq<Byte>)
    returns (ok: bool, t: nat, ip: nat)
    requires n == |inp| && start <= n && Unread(src, base, inp, start)
    ensures ReadExt(inp, start, acc) == if ok then Count(t, ip) else Short
    ensures ok ==> start < ip <= n
  {
    t, ip := acc, start;
    while ip < n && src[base + ip] == 0
      invariant start <= ip <= n
      invariant ReadExt(inp, ip, t) == ReadExt(inp, start, acc)
      decreases n - ip
    {
      t, ip := t + 255, ip + 1;
    }
    if ip == n { return false, t, ip; }
    t, ip := t + src[base + ip], ip + 1;
    ok := true;
  }

  method ReadLen(src: array<Byte>, base: nat, n: nat, start: nat, small: nat, acc: nat, ghost inp: seq<Byte>)
    returns (ok: bool, t: nat, ip: nat)
    requires n == |inp| && start <= n && Unread(src, base, inp, start)
    ensures LenField(inp, start, small, acc) == if ok then Count(t, ip) else Short
    ensures ok ==> start <= ip <= n
  {
    if small != 0 { return true, small, start; }
    ok, t, ip := ReadExtension(src, base, n, start, acc, inp);
  }

  method ReadFar(src: array<Byte>, base: nat, n: nat, start: nat, small: nat, acc: nat, m4: bool, high: nat, ghost inp: seq<Byte>)
    returns (o: Op)
    requires n == |inp| && start <= n && Unread(src, base, inp, start)
    ensures o == FarOp(inp, LenField(inp, start, small, acc), m4, high)
  {
    hide ReadExt, LenField;
    var ok, t, ip := ReadLen(src, base, n, start, small, acc, inp);
    if !ok { return Bad(InputOverrun); }
    if ip + 1 >= n { return Bad(Overread); }
    var b0: int, b1: int := src[base + ip], src[base + ip + 1];
    assert b0 == inp[ip] && b1 == inp[ip + 1];
    var d := b0 / 4 + b1 * 64 + high;
    if !m4 { return CopyOp(t + 2, 1 + d, ip + 2); }
    if d == 0 { return Stop(ip + 2); }
    o := CopyOp(t + 2, d + 0x4000, ip + 2);
  }

  /** Read one opcode with its operands; what an opcode below 16 is depends on the literals before it. */
  method ReadOp(src: array<Byte>, base: nat, n: nat, ip: nat, ctx: Context, ghost inp: seq<Byte>) returns (o: Op)
    requires n == |inp| && Unread(src, base, inp, ip)
    ensures o == ParseOp(inp, ip, ctx)
  {
    hide ReadExt, FarOp, LenField;
    if ip >= n { return Bad(if ctx == AfterMatch then EofNotFound else Overread); }
    var t: int := src[base + ip];
    assert t == inp[ip];
    if ctx == Start && t > 17 { return Literals(t - 17, ip + 1); }
    if ctx == AfterShort && ip + 1 >= n { return Bad(EofNotFound); }
    if 32 <= t < 64 {
      o := ReadFar(src, base, n, ip + 1, t % 32, 31, false, 0, inp);
    } else if 16 <= t < 32 {
      o := ReadFar(src, base, n, ip + 1, t % 8, 7, true, t / 8 % 2 * 0x4000, inp);
    } else if t < 16 && (ctx == Start || ctx == AfterMatch) {
      var ok, m, next := ReadLen(src, base, n, ip + 1, t, 15, inp);
      o := if ok then Literals(m + 3, next) else Bad(InputOverrun);
    } else if ip + 1 >= n {
      o := Bad(Overread);
    } else {
      var u: int := src[base + ip + 1];
      assert u == inp[ip + 1];
      if t >= 64 {
        o := CopyOp(t / 32 + 1, 1 + t / 4 % 8 + u * 8, ip + 2);
      } else if ctx == AfterShort {
        o := CopyOp(2, 1 + t / 4 + u * 4, ip + 2);
      } else {
        o := CopyOp(3, 1 + M2_MAX_OFFSET + t / 4 + u * 4, ip + 2);
      }
    }
  }

  /** NEED_OP(t), NEED_IP(t + 1) and the literal copy that follows them. */
  method RunLiterals(src: array<Byte>, base: nat, n: nat, dst: array<Byte>, op: nat, cap: nat, ip: nat, t: nat,
                     ghost inp: seq<Byte>)
    returns (code: Code, ctx: Context)
    requires n == |inp| && ip <= n && op <= cap <= dst.Length && Unread(src, base, inp, ip)
    requires src == dst ==> op <= base + ip
    modifies dst
    ensures code == OK ==> op + t <= cap && ip + t <= n && Unread(src, base, inp, ip + t)
    ensures StepLiterals(inp, ip, old(dst[..op]), cap, t)
         == if code == OK then More(ip + t, ctx, dst[..op + t]) else Done(Outcome(code, dst[..op]))
    ensures forall k :: cap <= k < dst.Length ==> dst[k] == old(dst[k])
  {
    ctx := if t < 4 then AfterShort else AfterRun;
    if op + t > cap { return OutputOverrun, ctx; }
    if ip + t + 1 > n { return InputOverrun, ctx; }
    CopyLiterals(src, base + ip, dst, op, t);
    code := OK;
  }

  /** One match: look-behind and room tests, the copy, and the literals announced two bytes before. */
  method RunCopy(src: array<Byte>, base: nat, n: nat, dst: array<Byte>, op: nat, cap: nat, ip: nat, len: nat, off: nat,
                 ghost inp: seq<Byte>)
    returns (code: Code, ip': nat, op': nat, ctx: Context)
    requires n == |inp| && 2 <= ip <= n && op <= cap <= dst.Length && off >= 1 && Unread(src, base, inp, ip - 2)
    requires src == dst && off <= op && op + len <= cap ==> op + len <= base + ip - 2
    modifies dst
    ensures ip <= ip' <= n && op' <= cap
    ensures StepCopy(inp, ip, old(dst[..op]), cap, len, off)
         == if code == OK then More(ip', ctx, dst[..op']) else Done(Outcome(code, dst[..op']))
    ensures code == OK ==> Unread(src, base, inp, ip')
    ensures forall k :: cap <= k < dst.Length ==> dst[k] == old(dst[k])
  {
    ip', op', ctx := ip, op, AfterMatch;
    if off > op { code := LookbehindOverrun; return; }
    if op + len > cap { code := OutputOverrun; return; }
    CopyBack(dst, op, off, len);
    op' := op + len;
    assert Unread(src, base, inp, ip - 2);
    var t: int := src[base + ip - 2] % 4;
    assert src[base + (ip - 2)] == inp[ip - 2];
    if t == 0 {
      code := OK;
    } else {
      code, ctx := RunLiterals(src, base, n, dst, op', cap, ip, t, inp);
      if code == OK { ip', op' := ip + t, op' + t; }
    }
  }

  /** The decoder.  The result is that of the machine on the input as it was at the start, even when
      the output overwrites the input, as long as the writes stay behind the reads. */
  method DecompressSafe(src: array<Byte>, base: nat, n: nat, dst: array<Byte>, cap: nat) returns (code: Code, outLen: nat)
    requires base + n <= src.Length && cap <= dst.Length
    requires src == dst ==> StaysAhead(src[base..base + n], 0, Start, [], cap, base)
    modifies dst
    ensures outLen <= cap
    ensures Decompress(old(src[base..base + n]), cap) == Outcome(code, dst[..outLen])
    ensures forall k :: cap <= k < dst.Length ==> dst[k] == old(dst[k])
  {
    hide ParseOp, StepCopy, StepLiterals;
    ghost var inp := src[base..base + n];
    var ip, ctx := 0, Start;
    outLen := 0;
    while true
      invariant ip <= n && outLen <= cap
      invariant Unread(src, base, inp, ip)
      invariant src == dst ==> StaysAhead(inp, ip, ctx, dst[..outLen], cap, base)
      invariant Decompress(inp, cap) == Decode(inp, ip, ctx, dst[..outLen], cap)
      invariant forall k :: cap <= k < dst.Length ==> dst[k] == old(dst[k])
      decreases n - ip
    {
      ghost var out := dst[..outLen];
      var o := ReadOp(src, base, n, ip, ctx, inp);
      match o
      case Bad(c) => return c, outLen;
      case Stop(next) => return if next == n then OK else InputNotConsumed, outLen;
      case Literals(m, next) =>
        code, ctx := RunLiterals(src, base, n, dst, outLen, cap, next, m, inp);
        if code != OK { return; }
        ip, outLen := next + m, outLen + m;
      case CopyOp(len, off, next) =>
        code, ip, outLen, ctx := RunCopy(src, base, n, dst, outLen, cap, next, len, off, inp);
        if code != OK { return; }
    }
  }
}
