/** Blocks as lzop writes and reads them: compressed with one of the three methods, optimized, or stored; and decoded
    inside the buffer they were read into. */
module LzopBlock {
  import opened Arithmetic
  import opened Bytes
  import opened LzoFormat
  import opened LzoDecoder
  import opened LzoDecode
  import opened LzoBounds
  import opened LzoCompress1
  import opened LzoCompress999
  import opened LzoTrace
  import opened LzoOptimize

  datatype Method = Lzo1x1 | Lzo1x115 | Lzo1x999(level: int)

  /** A block that the reader gets the data back from: shorter than the data and compressed, or the data itself. */
  ghost predicate BlockOf(block: seq<Byte>, data: seq<Byte>) {
    if |block| < |data| then LeanBlock(block, |data|) && Decompress(block, |data|) == Outcome(OK, data) else block == data
  }

  /** `block` is what the optimizer makes of `raw`: it is changed, and takes the decoder fewer rounds, if and only if some match
      can go. */
  ghost predicate Optimized(raw: seq<Byte>, block: seq<Byte>, n: nat) {
    exists before :: Improved(raw, block, n, before)
  }

  ghost predicate Improved(raw: seq<Byte>, block: seq<Byte>, n: nat, before: seq<Token>) {
    && Tokens(raw, before) && |block| == |raw|
    && ((exists i: nat :: Spot(raw, before, i)) <==> Rounds(block, 0, Start, [], n) < Rounds(raw, 0, Start, [], n))
    && ((exists i: nat :: Spot(raw, before, i)) <==> block != raw)
  }

  /** The compressing part of lzo_compress; `ok` is false if the program gives up with an internal error. */
  method WriteBlock(data: seq<Byte>, how: Method, dict: array<int>, mem: Memory)
    returns (ok: bool, block: seq<Byte>, ghost raw: seq<Byte>, ghost log: seq<Entry>)
    requires 2 <= dict.Length <= 0x10000 && Sized(mem)
    modifies dict
    ensures ok <==> (how.Lzo1x999? ==> 7 <= how.level <= 9)
    ensures ok ==> BlockOf(block, data) && |block| == (if |raw| < |data| then |raw| else |data|) && (|raw| >= |data| ==> block == data)
    ensures ok && |block| < |data| ==> if how.Lzo1x999? then Optimized(raw, block, |data|) else raw == block
    ensures ok && how.Lzo1x999? ==>
      Parsed(log, |data|, |raw|) && AllLawful(log, data, if how.level == 7 then Setting(8, 32, 256, false)
                                                         else if how.level == 8 then Setting(32, 128, 2048, true) else Setting(2048, 2048, 4096, true))
    ensures ok && Uniform(data) ==> if how.Lzo1x999? then |block| <= 16 + 11 * |data| / 2048 else |data| < 19 || |block| <= 13 + |data| / 255
  {
    hide LeanBlock, Decompress, Optimized, Parsed, AllLawful;
    log := [];
    if how.Lzo1x999? {
      var r;
      r, block, log := CompressLevel(data, mem, how.level);
      raw := block;
      if r != 0 { return false, [], raw, log; }
      if |block| < |data| { block := OptimizeBlock(block, data); }
    } else {
      ghost var toks;
      block, toks := Compress(data, dict);
      raw := block;
    }
    ok := true;
    if |block| >= |data| { block := data; }
  }

  method OptimizeBlock(block: seq<Byte>, data: seq<Byte>) returns (block': seq<Byte>)
    requires LeanBlock(block, |data|) && Decompress(block, |data|) == Outcome(OK, data)
    ensures |block'| == |block| && LeanBlock(block', |data|) && Decompress(block', |data|) == Outcome(OK, data)
    ensures Optimized(block, block', |data|)
  {
    hide LeanBlock, Decompress, Tokens, Spot, Rounds;
    var b2 := new Byte[|block|](i requires 0 <= i < |block| => block[i]);
    assert b2[..] == block;
    ghost var before;
    var code, out;
    code, out, before := Optimize(b2, |data|);
    block' := b2[..];
    assert Improved(block, block', |data|, before);
  }

  /** No byte of a compressed block is overwritten before its last read.  Blocks that lzop has written are like that. */
  ghost predicate Undisturbed(block: seq<Byte>, dstLen: nat, blockSize: nat) {
    |block| < dstLen <= blockSize ==>
      |block| <= MaxCompressedSize(blockSize) && StaysAhead(block, 0, Start, [], dstLen, MaxCompressedSize(blockSize) - |block|)
  }

  lemma LeanUndisturbed(block: seq<Byte>, dstLen: nat, blockSize: nat)
    requires |block| < dstLen ==> LeanBlock(block, dstLen)
    ensures Undisturbed(block, dstLen, blockSize)
  {
    hide LeanBlock, StaysAhead;
    if |block| < dstLen <= blockSize { InPlaceSafe(block, dstLen, MaxCompressedSize(blockSize) - |block|, blockSize); }
  }

  /** The decompressing part of lzo_decompress, with a block size that holds so far and whatever the buffer held. */
  method ReadBlock(block: seq<Byte>, dstLen: nat, blockSize0: nat, memory: seq<Byte>) returns (ok: bool, data: seq<Byte>, blockSize: nat)
    requires Undisturbed(block, dstLen, Max(blockSize0, dstLen)) && |memory| == MaxCompressedSize(Max(blockSize0, dstLen))
    ensures blockSize >= blockSize0 && (ok ==> blockSize >= dstLen)
    ensures ok <==> 0 < |block| <= dstLen && (|block| < dstLen ==> Decompress(block, dstLen).code == OK && |Decompress(block, dstLen).out| == dstLen)
    ensures ok ==> if |block| < dstLen then Decompress(block, dstLen) == Outcome(OK, data) else data == block
  {
    hide Decompress, StaysAhead;
    blockSize := blockSize0;
    if |block| == 0 || |block| > dstLen { return false, [], blockSize; }
    if dstLen > blockSize { blockSize := dstLen; }
    if |block| < dstLen {
      var at := |memory| - |block|;
      var b2 := new Byte[|memory|](i requires 0 <= i < |memory| => if i < at then memory[i] else block[i - at]);
      assert b2[at..] == block;
      var code, d := DecompressBlock(b2, blockSize, |block|, dstLen);
      if code != OK || d != dstLen { return false, [], blockSize; }
      return true, b2[..d], blockSize;
    }
    return true, block, blockSize;
  }

  /** What is written is read back, for all data, all methods and whatever the memory held. */
  method RoundTrip(data: seq<Byte>, how: Method, dict: array<int>, mem: Memory, blockSize: nat, memory: seq<Byte>) returns (back: seq<Byte>)
    requires 2 <= dict.Length <= 0x10000 && Sized(mem) && data != [] && (how.Lzo1x999? ==> 7 <= how.level <= 9)
    requires |memory| == MaxCompressedSize(Max(blockSize, |data|))
    modifies dict
    ensures back == data
  {
    hide LeanBlock, Decompress, Undisturbed, Optimized, Parsed, AllLawful;
    ghost var raw, log;
    var ok, block;
    ok, block, raw, log := WriteBlock(data, how, dict, mem);
    LeanNotEmpty(block, |data|);
    LeanUndisturbed(block, |data|, Max(blockSize, |data|));
    var size;
    ok, back, size := ReadBlock(block, |data|, blockSize, memory);
  }

  lemma LeanNotEmpty(block: seq<Byte>, n: nat)
    ensures LeanBlock(block, n) ==> block != []
  {
  }
}
