# Verified models of four codecs and drivers

This project models, in Dafny, the parts of the repository in which a mistake is hardest to see, and proves what they
are for:

- **LZO1X** (`archival/lzo1x_*.c`, `lzop.c`): two compressors, the decoder, the in-place optimizer and the
  sliding-window dictionary. Both compressors round-trip for every input, whatever their work memory held; the optimizer
  keeps the meaning of every block that decodes; and every block that lzop writes, with any of the three methods and
  optimized or not, is read back although the decoder overwrites its own input.
- **Deflate** (`archival/gzip.c`): the sliding window with its hash chains, lazy matching, the Huffman trees with the
  repair of over-long codes, canonical codes, the transmission of the trees, the three kinds of blocks and the bit
  buffer. An inflater, written down from RFC 1951, makes the input of everything the compressor writes, for every
  pattern of short reads; within its limits the search passes over no longer match; code lengths are optimal among all
  prefix codes unless a code reaches the limit, and even then rarer symbols do not have shorter codes; and the size that
  flush_block computes is exactly the number of bits sent, in the cheapest kind of block.
- **dpkg** (`archival/dpkg.c`): the version order of section 5.6.12 of the Debian Policy Manual, and the tables that
  intern names, with double hashing over a prime number of slots.
- **UART** (`software/camera/uart.c`, `isr.c`): the transmit and receive rings against interrupts at every point between
  two accesses to shared state.

## How it is built

| files | contents |
|---|---|
| `Arithmetic`, `Bytes`, `BitSeq` | powers and remainders, bytes, the copy from earlier output that both formats share, strings of bits |
| `LzoFormat`, `LzoDecode`, `LzoDecoder`, `LzoBounds`, `LzoBytes` | the byte grammar as tokens; the decoder as a machine over literal contexts; the array program; expansion and in-place decoding; what single bytes make the decoder do, in numbers |
| `LzoWriter`, `LzoCompress1`, `LzoSwd`, `LzoCompress999` | writing runs and matches; LZO1X-1 and 1(15); the dictionary; LZO1X-999 |
| `LzoParse`, `LzoTrace`, `LzoOptimize`, `LzopBlock`, `Adler32` | from bytes back to tokens; the rounds of the decoder; the optimizer; blocks of lzop; the checksum |
| `GzWindow`, `GzSearch`, `GzOverrun`, `GzDeflate` | window and chains; filling and searching; inputs that make the search leave the window; the main loop and the round trip |
| `HuffmanOptimal`, `HuffmanBest` | why merging is optimal; the Kraft inequality for prefix codes |
| `HuffmanHeap`, `HuffmanMerge`, `HuffmanGreedy`, `HuffmanBuild`, `HuffmanTree`, `HuffmanSums`, `HuffmanDepth` | the heap, the merging loop, which roots it joins, what the depths of a tree add up to, and how deep it can be |
| `HuffmanLengths`, `HuffmanRepair`, `HuffmanAssign`, `HuffmanGen`, `HuffmanCodes`, `TreeBuilder` | gen_bitlen, gen_codes and build_tree |
| `DeflateFormat`, `DeflateStandard` | the format, read from bits: what an inflater does; and the tables and fields of RFC 1951 in numbers |
| `BitWriter`, `DeflateTokens`, `DeflateTables`, `DeflateRuns`, `DeflateTrees`, `DeflateHeader`, `DeflateBuffers`, `DeflateBlocks`, `DeflateCoder` | the bit buffer, the tables of ct_init, the header of a dynamic block, the token buffers, and flush_block |
| `DebVersion`, `DebCompare`, `DebIntern` | version strings, whole versions, hash tables |
| `UartRing`, `UartTx`, `UartRx` | the ring buffer, the transmitter, the receiver |

Input and output are values: a read is an element of a list of reads that the system will serve, of which an empty one
stands for the end of the file or an error; what is written is a sequence of bytes. Memory that the program does not
initialise is a parameter, and nothing is assumed about its contents. Points at which an interrupt may come are calls
that perform an arbitrary list of events.

## Where the code and its comments differ

- A forced symbol in build_tree can be 2, not only 0 or 1 (`archival/gzip.c:1242`), namely if 1 is the only symbol that
  occurs (`HuffmanBuild.ForceTwo`); it has no extra bits either.
- version_compare returns any integer of the right sign, not only -1, 0 and 1 (`archival/dpkg.c:240-243`):
  `DebVersion.TwoApart`.
- At the last byte of the input swd_findbest leaves best_off as the search before had it, so that its entries need not
  be occurrences there: `LzoSwd.StaleBest` is an input, and `LzoSwd.Swd.FindMatch` says exactly when they are. The caller
  does not use them then, because no match is reported.
- The window has 2 * WSIZE bytes (`archival/gzip.c:292`), and the comment in longest_match says that there is enough
  lookahead. After the end of the input there need not be: `GzDeflate.Gzip` says for which lengths of the input a byte
  after the window may be read, and `GzDeflate.ReadsPastWindow` has an input for each of them. The result is right all
  the same.
- uart0Getch updates its index in two steps. If the first takes it to the size of the buffer and an interrupt comes
  before the second, the interrupt does not see that the queue is full. `UartRx.GetchExact` says exactly when
  that does harm.
- ct_init leaves base_length[28] unset (`archival/gzip.c:1889-1900`); code 28 has no extra bits, so that it is never read.

## Model

| member | source | states |
|---|---|---|
| LzoFormat.PatchMatch | software/busybox-1.15.2/archival/lzo1x_c.c:133-136 | or-ing a count of 1 to 3 into the second last byte of a match gives exactly the encoding of that match with that many trailing literals |
| LzoFormat.LegalAppend | software/busybox-1.15.2/archival/lzo1x_d.c:83-140 | the context-sensitive grammar composes: two token lists are legal one after the other if and only if the second is legal in the context the first leaves |
| LzoDecode.ParseRun | software/busybox-1.15.2/archival/lzo1x_d.c:84-96 | the bytes of a literal run of any length, with extension bytes, are read back as that run |
| LzoDecode.ParseM3 | software/busybox-1.15.2/archival/lzo1x_d.c:218-252 | an M3 match of any length and distance is read back |
| LzoDecode.ParseM4 | software/busybox-1.15.2/archival/lzo1x_d.c:253-299 | an M4 match of any length and distance is read back, and is never mistaken for the end marker |
| LzoDecode.ParseNear | software/busybox-1.15.2/archival/lzo1x_d.c:137-325 | M1, far M1 and M2 matches are read back in the literal contexts that admit them |
| LzoDecode.ParseToken | software/busybox-1.15.2/archival/lzo1x_d.c:74-325 | every token that is legal in a context is read back, with the next context |
| LzoDecode.StepToken | software/busybox-1.15.2/archival/lzo1x_d.c:74-389 | one round of the decoder consumes exactly the bytes of one token and applies it |
| LzoDecode.DecodeTokens | software/busybox-1.15.2/archival/lzo1x_d.c:69-401 | every legal token stream decodes with LZO_E_OK to what it means, consuming all input |
| LzoDecode.DecompressStream | software/busybox-1.15.2/archival/lzo1x_d.c:69-401 | an encoded block decodes to its data from the start state |
| LzoDecoder.CopyLiterals | software/busybox-1.15.2/archival/lzo1x_d.c:97-135 | the literal copy, also when input and output are one array |
| LzoDecoder.CopyBack | software/busybox-1.15.2/archival/lzo1x_d.c:354-358 | the match copy repeats the output correctly when distance and length overlap |
| LzoDecoder.ReadExtension | software/busybox-1.15.2/archival/lzo1x_d.c:88-96 | the loop over zero bytes reads the same number as the grammar |
| LzoDecoder.ReadOp | software/busybox-1.15.2/archival/lzo1x_d.c:74-325 | reading an opcode from the array gives the operation of the byte machine |
| LzoDecoder.RunLiterals | software/busybox-1.15.2/archival/lzo1x_d.c:97-135 | the two room tests and the literal copy, with their error codes |
| LzoDecoder.RunCopy | software/busybox-1.15.2/archival/lzo1x_d.c:327-387 | the look-behind test, the room test, the copy and the literals announced two bytes before |
| LzoDecoder.DecompressSafe | software/busybox-1.15.2/archival/lzo1x_d.c:33-401 | the array program computes what the byte machine computes on the original input, even when the output overwrites the input behind the read position |
| LzoBytes.OpeningBytes | software/busybox-1.15.2/archival/lzo1x_d.c:74-81 | in numbers: a first byte 17 + n announces n literals |
| LzoBytes.RunBytes | software/busybox-1.15.2/archival/lzo1x_d.c:74-135 | in numbers: a byte n - 3 announces n literals up to 18, and a zero byte, k more and a byte e announce 18 + 255k + e |
| LzoBytes.NearBytes | software/busybox-1.15.2/archival/lzo1x_d.c:137-179 | in numbers: two bytes below 16 and any copy two bytes, 1 to 1024 back, after one to three literals, and three bytes, 2049 to 3072 back, after four or more; the low two bits of the first announce the literals after it |
| LzoBytes.MediumBytes | software/busybox-1.15.2/archival/lzo1x_d.c:186-216 | in numbers: a byte from 64 on and any byte copy three to eight bytes, 1 to 2048 back |
| LzoBytes.FarBytes | software/busybox-1.15.2/archival/lzo1x_d.c:218-252 | in numbers: a byte from 32 to 63 copies up to 33 bytes, or any number by the extension bytes after it, 1 to 16384 back |
| LzoBytes.FarthestBytes | software/busybox-1.15.2/archival/lzo1x_d.c:253-299 | in numbers: a byte from 16 to 31 copies up to 9 bytes, or any number by the extension bytes after it, 16385 to 49151 back |
| LzoBytes.TrailingBytes | software/busybox-1.15.2/archival/lzo1x_d.c:391-401 | after the bytes 17, 0 and 0 the result is LZO_E_OK exactly at the end of the input; with more bytes it is LZO_E_INPUT_NOT_CONSUMED |
| LzoBytes.ShortOfRoom | software/busybox-1.15.2/archival/lzo1x_d.c:97-98 | literals that do not fit give LZO_E_OUTPUT_OVERRUN, and literals that are not there LZO_E_INPUT_OVERRUN |
| LzoBytes.ShortOfHistory | software/busybox-1.15.2/archival/lzo1x_d.c:327-328 | a match that starts before the output gives LZO_E_LOOKBEHIND_OVERRUN, and one that does not fit LZO_E_OUTPUT_OVERRUN |
| LzoBounds.Expansion | software/busybox-1.15.2/archival/lzop.c:596 | amortised bound: a stream whose matches all save a byte is at most n + n/16 + 1 bytes long, in every context |
| LzoBounds.ExpansionBound | software/busybox-1.15.2/archival/lzop.c:596 | such a stream with its end marker fits MAX_COMPRESSED_SIZE |
| LzoBounds.FrugalExpansion | software/busybox-1.15.2/archival/lzop.c:596 | amortised bound for streams with matches that save nothing: if every match after four literals or more saves a byte, the stream is at most n + n/16 + 2 bytes long, in every context |
| LzoBounds.FrugalBound | software/busybox-1.15.2/archival/lzop.c:596 | such a stream with its end marker fits MAX_COMPRESSED_SIZE |
| LzoBounds.FrugalIsLean | software/busybox-1.15.2/archival/lzop.c:769-799 | at every boundary between its tokens, what is left of such a stream is hardly longer than the data it stands for |
| LzoBounds.WrittenIsLean | software/busybox-1.15.2/archival/lzop.c:640-648 | so that every block written that way is lean: the bound holds at every opcode the decoder comes to |
| LzoBounds.TailStaysAhead | software/busybox-1.15.2/archival/lzop.c:769-799 | from any opcode of a lean block on, the read position stays ahead of the write position, including the byte read two before |
| LzoBounds.InPlaceSafe | software/busybox-1.15.2/archival/lzop.c:769-799 | decoding a lean block from the tail of the same buffer overwrites no byte before its last read |
| LzoBounds.DecompressBlock | software/busybox-1.15.2/archival/lzop.c:769-799 | for every block of which no byte is overwritten before its last read, and so for every lean block, the overlapping call of the block reader returns exactly what the block decodes to |
| LzoWriter.StoreRun | software/busybox-1.15.2/archival/lzo1x_9x.c:570-593 | literals are written as a first run, as a patched count or as a run, and extend what the output means by exactly these literals |
| LzoWriter.PutExt | software/busybox-1.15.2/archival/lzo1x_c.c:140-149 | the extension loop writes the extension of the grammar |
| LzoWriter.PutFar | software/busybox-1.15.2/archival/lzo1x_c.c:204-236 | the M3 and M4 forms with their length extension |
| LzoCompress1.Probe | software/busybox-1.15.2/archival/lzo1x_c.c:53-91 | for every content of the dictionary and in both directions: if the first entry tried is in reach and is near or agrees in the fourth byte, a match is found exactly if that distance is one; otherwise the same of the second entry; what is found is real, within reach, and agrees in a fourth byte if it is distant |
| LzoCompress1.MatchLength | software/busybox-1.15.2/archival/lzo1x_c.c:153-201 | the match length is exact: all bytes agree and the next one does not |
| LzoCompress1.PutMatch | software/busybox-1.15.2/archival/lzo1x_c.c:168-236 | the bytes of the M2, M3 or M4 form |
| LzoCompress1.EmitMatch | software/busybox-1.15.2/archival/lzo1x_c.c:127-241 | pending literals and the match extend what has been written by exactly the bytes consumed, and the match saves a byte; its size is stated |
| LzoCompress1.DoCompress | software/busybox-1.15.2/archival/lzo1x_c.c:31-248 | the main loop: what has been written stands for the input up to ii |
| LzoCompress1.MissOnRow | software/busybox-1.15.2/archival/lzo1x_c.c:53-91 | in a row of equal bytes nothing is found at most at the first position that is tried |
| LzoCompress1.HitOnRow | software/busybox-1.15.2/archival/lzo1x_c.c:71-91 | and the first match takes all that is left, so that the output stays small |
| LzoCompress1.Compress | software/busybox-1.15.2/archival/lzo1x_c.c:253-296 | for every input and every dictionary content the output decodes to the input, fits MAX_COMPRESSED_SIZE and is lean; and nineteen or more equal bytes take at most 13 bytes and one for every 255 of them |
| LzoSwd.Key3Injective | software/busybox-1.15.2/archival/lzo1x_9x.c:93-94 | with two bytes equal, equal HEAD3 keys make the third byte equal |
| LzoSwd.ChainsInsert | software/busybox-1.15.2/archival/lzo1x_9x.c:258-264 | entering a position keeps the chains exact: every head, link and count describes the positions with that key |
| LzoSwd.ChainsRemove | software/busybox-1.15.2/archival/lzo1x_9x.c:226-243 | removing the oldest position keeps the chains exact |
| LzoSwd.Heads2Remove | software/busybox-1.15.2/archival/lzo1x_9x.c:236-242 | removing the oldest position keeps the two-byte table exact: the last position of every key in the window is there |
| LzoSwd.Swd.constructor | software/busybox-1.15.2/archival/lzo1x_9x.c:159-193 | the dictionary is consistent whatever the work memory held |
| LzoSwd.Swd.RemoveNode | software/busybox-1.15.2/archival/lzo1x_9x.c:226-243 | the oldest position leaves both tables when the window is full |
| LzoSwd.Swd.GetByte | software/busybox-1.15.2/archival/lzo1x_9x.c:202-220 | one byte enters the ring and its mirror, and all indices wrap together |
| LzoSwd.Swd.Accept | software/busybox-1.15.2/archival/lzo1x_9x.c:249-274 | positions are entered without a search |
| LzoSwd.Swd.Compare | software/busybox-1.15.2/archival/lzo1x_9x.c:299-313 | a candidate that is not skipped is a true earlier occurrence, although its third byte is not compared |
| LzoSwd.Swd.Search2 | software/busybox-1.15.2/archival/lzo1x_9x.c:341-362 | the two-byte table reports a true earlier occurrence, and one is found whenever the two bytes occur in the window |
| LzoSwd.Swd.Search | software/busybox-1.15.2/archival/lzo1x_9x.c:280-333 | everything the chain search records is a true earlier occurrence |
| LzoSwd.Swd.FirstIs | software/busybox-1.15.2/archival/lzo1x_9x.c:286-294 | the first position that is tried is the last one in the window with the same key |
| LzoSwd.Swd.DeepHere | software/busybox-1.15.2/archival/lzo1x_9x.c:280-333 | the search does not report less than the match at that position |
| LzoSwd.Swd.SetBestOff | software/busybox-1.15.2/archival/lzo1x_9x.c:404-412 | every nonzero best_off[i] is the distance of a true occurrence of length i |
| LzoSwd.Swd.FindBest | software/busybox-1.15.2/archival/lzo1x_9x.c:370-423 | the search, and the tables after it |
| LzoSwd.Swd.FindMatch | software/busybox-1.15.2/archival/lzo1x_9x.c:454-487 | after any sequence of calls, a reported match is a true earlier occurrence at a distance within the window; two bytes that occur in the window are found; and all nonzero best_off entries are true occurrences if and only if this is not the last input byte or there were no entries before; what is reported is at least as long as the match at the last position with the same three bytes; and the number of bytes that can be seen from there is exact |
| LzoSwd.Swd.BestExact | software/busybox-1.15.2/archival/lzo1x_9x.c:388-413 | that condition for best_off is exact |
| LzoSwd.StaleBest | software/busybox-1.15.2/archival/lzo1x_9x.c:388-413 | for the input abab, best_off holds a distance at the last byte that is no occurrence there |
| LzoCompress999.CodeMatch | software/busybox-1.15.2/archival/lzo1x_9x.c:502-567 | the bytes of the form that the literal context admits |
| LzoCompress999.LenOfCodedMatch | software/busybox-1.15.2/archival/lzo1x_9x.c:614-641 | -1 exactly for what cannot be coded, and otherwise exactly the number of bytes code_match writes: 2, 3, or 4 and one for every 255 bytes beyond 33 or 9 |
| LzoCompress999.CodePair | software/busybox-1.15.2/archival/lzo1x_9x.c:863-868 | a run and a match after it decode to exactly the bytes they stand for, in all three literal contexts |
| LzoCompress999.MatchSaves | software/busybox-1.15.2/archival/lzo1x_9x.c:781-785 | a match that is coded after four literals or more saves a byte |
| LzoCompress999.BetterMatch | software/busybox-1.15.2/archival/lzo1x_9x.c:673-710 | the replacement is a true, not longer match of at least three bytes, and which one it is is stated |
| LzoCompress999.BetterIsCheaper | software/busybox-1.15.2/archival/lzo1x_9x.c:673-710 | a match that is replaced loses one or two bytes and takes at least one byte less; and a cheaper match of one byte less is taken, but for four kinds that are not looked for |
| LzoCompress999.MinGainMeans | software/busybox-1.15.2/archival/lzo1x_9x.c:644-664 | what a later match must gain, in numbers |
| LzoCompress999.TryLazy | software/busybox-1.15.2/archival/lzo1x_9x.c:810-860 | the offers of the lazy search are those of the dictionary, with a quarter of the chain after a good match; the first that wins is taken; and without one the search has gone as far as it may |
| LzoCompress999.LawfulMeans | software/busybox-1.15.2/archival/lzo1x_9x.c:796-852 | one later position is looked at after a match of two bytes, two after a longer one and none after a long one; and an offer is taken if and only if it is longer or nearer and gains what it must, in numbers |
| LzoCompress999.TakesLiteral | software/busybox-1.15.2/archival/lzo1x_9x.c:763-786 | when a match that was found is not coded |
| LzoCompress999.LitHeadMeans | software/busybox-1.15.2/archival/lzo1x_9x.c:570-593 | the number of bytes that announce literals |
| LzoCompress999.CodeBest | software/busybox-1.15.2/archival/lzo1x_9x.c:796-873 | lazy matching: whatever is chosen, what is written stands for the input up to the new position; the choice is lawful; and the number of bytes written is what the choice costs |
| LzoCompress999.CompressInternal | software/busybox-1.15.2/archival/lzo1x_9x.c:718-889 | for every input, every setting and every content of the work memory the output decodes to the input, fits MAX_COMPRESSED_SIZE and is lean; there is a log of all rounds of the main loop, each where the one before leads to and lawful under the setting, and the output is exactly as long as the log says |
| LzoCompress999.CompressLevel | software/busybox-1.15.2/archival/lzo1x_9x.c:895-920 | levels 7 to 9 succeed, round-trip and give lean blocks that fit; all others are refused; every round is lawful under the setting of the level, 8, 32, 256 without best_off, 32, 128, 2048 with it, or 2048, 2048, 4096 with it; and equal bytes take at most 16 bytes and eleven for every 2048 of them |
| LzoCompress999.UniformDeep | software/busybox-1.15.2/archival/lzo1x_9x.c:280-333 | in a row of equal bytes the search reports the longest match there can be, at distance one |
| LzoParse.MatchInverse | software/busybox-1.15.2/archival/lzo1x_d.c:168-325 | every match opcode that is read is the encoding of the match it is read as |
| LzoParse.RunInverse | software/busybox-1.15.2/archival/lzo1x_d.c:84-96 | every run opcode that is read is the encoding of that run |
| LzoOptimize.Copy2 | software/busybox-1.15.2/archival/lzop.c:47-54 | writes the two bytes that the match would have copied |
| LzoOptimize.Copy3 | software/busybox-1.15.2/archival/lzop.c:56-70 | writes the three bytes that the match would have copied |
| LzoOptimize.JoinShort | software/busybox-1.15.2/archival/lzop.c:157-167 | M1-a and M3-a: turning a short match between two matches into trailing literals of the first one keeps the meaning |
| LzoOptimize.JoinRun | software/busybox-1.15.2/archival/lzop.c:168-188 | M1-b and M3-b: turning trailing literals, a short match and the run after it into one run keeps the meaning |
| LzoOptimize.JoinLong | software/busybox-1.15.2/archival/lzop.c:208-224 | M2: turning a run, a match of three and the run after it into one run keeps the meaning |
| LzoOptimize.RewriteShort | software/busybox-1.15.2/archival/lzop.c:256-266 | the in-place rewrites M1-a and M3-a |
| LzoOptimize.RewriteRun | software/busybox-1.15.2/archival/lzop.c:267-289 | the in-place rewrites M1-b and M3-b, after which the longer run may be rewritten again |
| LzoOptimize.RewriteLong | software/busybox-1.15.2/archival/lzop.c:208-224 | the in-place rewrite M2 |
| LzoOptimize.OptimizeMatch | software/busybox-1.15.2/archival/lzop.c:148-312 | every match is kept or rewritten so that the decoded prefix stays the same |
| LzoTrace.RoundsOf | software/busybox-1.15.2/archival/lzo1x_d.c:69-401 | the decoder takes as many rounds for an encoded stream as it has tokens, and one for the end |
| LzoOptimize.Decision | software/busybox-1.15.2/archival/lzop.c:148-312 | which matches are rewritten, in numbers: the tests of the pass on the opcode, the literals before it and the byte after it |
| LzoOptimize.Optimize | software/busybox-1.15.2/archival/lzop.c:78-325 | for every block that decodes, the rewritten block has the same length and decodes to the same bytes; and it is lean if the block was; and the block is changed if and only if there is such a match, and then the decoder takes fewer rounds |
| LzoOptimize.TrimEnd | software/busybox-1.15.2/archival/lzop.c:78-325 | the tokens of the rewritten block end where tokens of the original one did, or as many literals before, so that the bound carries over |
| LzopBlock.WriteBlock | software/busybox-1.15.2/archival/lzop.c:636-690 | compressed, and optimized if the method is LZO1X-999, or stored, exactly if compressing does not make it shorter: in each case a block from which the data can be read back in place; the compressors keep what they promise of their choices and of equal bytes |
| LzopBlock.ReadBlock | software/busybox-1.15.2/archival/lzop.c:726-817 | the block is decoded in the buffer it was read into, whatever that held before, or taken as it is; refused exactly if the lengths do not agree or the block does not decode to as many bytes |
| LzopBlock.RoundTrip | software/busybox-1.15.2/archival/lzop.c:636-817 | what is written is read back, for all data, all three methods and whatever the memory held |
| Adler32.ChecksumComposes | software/busybox-1.15.2/archival/lzop.c:490-497 | the checksum of a message is that of its pieces fed one after the other |
| Adler32.ChunkFits | software/busybox-1.15.2/archival/lzop.c:439-444 | 5552 deferred steps stay below 2^32 for every data |
| Adler32.Chunk | software/busybox-1.15.2/archival/lzop.c:453-458 | the inner loop, without reduction and within 32 bits |
| Adler32.ChecksumMeans | software/busybox-1.15.2/archival/lzop.c:436-463 | the closed form of section 8.2 of RFC 1950: the low half is the sum of the bytes and of the low half before, and the high half the sum of the bytes weighted by their distance from the end, both modulo 65521 |
| Adler32.Compute | software/busybox-1.15.2/archival/lzop.c:436-463 | lzo_adler32 is the checksum of section 8.2 of RFC 1950, reduced at every byte, and never overflows, and is that closed form |
| GzWindow.PrimedKey | software/busybox-1.15.2/archival/gzip.c:1669 | the running hash value forgets all but the last bytes, so that it is the key of the next string |
| GzWindow.KeyInjective | software/busybox-1.15.2/archival/gzip.c:627-633 | with two bytes equal, equal keys make the third byte equal |
| GzWindow.EnterChains | software/busybox-1.15.2/archival/gzip.c:1699-1704 | entering a string keeps heads and links exact: every head is the last string with its key, and every link the last one before |
| GzWindow.ChainsSlide | software/busybox-1.15.2/archival/gzip.c:544-560 | after a slide, heads and links are exact for the strings that are left |
| GzWindow.Window.FileRead | software/busybox-1.15.2/archival/gzip.c:413-425 | between one byte and the size asked for, or nothing at the end |
| GzWindow.Window.Slide | software/busybox-1.15.2/archival/gzip.c:538-562 | the upper half moves down; window, chains and positions agree with the input as before |
| GzWindow.Window.FillWindow | software/busybox-1.15.2/archival/gzip.c:524-572 | at least two bytes are asked for, nothing read is lost, strstart + lookahead stays within the window, and the whole new state is stated: whether it slides, and what one read appends |
| GzWindow.Window.Enter | software/busybox-1.15.2/archival/gzip.c:1699-1704 | the head that is returned is the last string before with the same key; the string is the new head; the window is read up to its third byte |
| GzWindow.Window.Compare | software/busybox-1.15.2/archival/gzip.c:617-646 | the length is exact, a skipped candidate is not longer than the length to beat, and so is the position up to which the window is read |
| GzWindow.Window.LongestMatch | software/busybox-1.15.2/archival/gzip.c:588-660 | a reported match is real and at most 32506 back; the search stops only at 258 bytes, after 4096 positions (1024 if the match before has 32 bytes or more), or when no position in reach has a longer match; and it reads the window exactly up to the byte after the best match |
| GzWindow.NoneLongerMeans | software/busybox-1.15.2/archival/gzip.c:588-660 | what that means: every position less than 32506 back differs in one of the first three bytes or of the first bytes up to one more than the best match |
| HuffmanHeap.PqDownHeap | software/busybox-1.15.2/archival/gzip.c:1015-1037 | restores the heap order from k on and permutes the elements |
| HuffmanHeap.TopIsSmallest | software/busybox-1.15.2/archival/gzip.c:1005-1013 | the first element of a heap is smallest by frequency and depth |
| HuffmanBuild.Collect | software/busybox-1.15.2/archival/gzip.c:1220-1227 | the heap holds exactly the symbols that occur |
| HuffmanBuild.ForceTwo | software/busybox-1.15.2/archival/gzip.c:1234-1243 | at least two codes exist; which symbols are given frequency 1 is stated exactly: 0 and 1 if none occurs, and otherwise the one after the only one that occurs if that is 0 or 1, or else 0 |
| HuffmanBuild.Heapify | software/busybox-1.15.2/archival/gzip.c:1246-1250 | the heap order over all symbols |
| HuffmanMerge.MergeOnce | software/busybox-1.15.2/archival/gzip.c:1255-1276 | one merge takes the first two roots by weight and height, lists them before the others, and keeps the forest, the heap and the cost of merging plus the weights of the inner nodes |
| HuffmanBuild.MergeAll | software/busybox-1.15.2/archival/gzip.c:1252-1278 | one tree remains; its list has parents before children; its inner weights add up to the cost of merging two smallest |
| HuffmanGreedy.JoinsFirstTwo | software/busybox-1.15.2/archival/gzip.c:1252-1278 | every inner node joins two roots that come before all others of its time, by weight and, among equal weights, by height; it weighs as much as both and is one higher than the higher |
| HuffmanGreedy.QueueStep | software/busybox-1.15.2/archival/gzip.c:1255-1276 | the weights in the list of nodes never rise, and no root is lighter than a listed node |
| HuffmanDepth.HeavyJoin | software/busybox-1.15.2/archival/gzip.c:1255-1276 | joining the two lightest trees keeps every subtree of depth d at least as heavy as the d-th of 1, 2, 3, 5, 8 and so on |
| HuffmanDepth.RootWeight | software/busybox-1.15.2/archival/gzip.c:1262-1263 | the weight of the root is the total of the frequencies |
| HuffmanDepth.DepthBound | software/busybox-1.15.2/archival/gzip.c:898 | a subtree can only be as deep as the total of the frequencies allows |
| HuffmanDepth.NarrowTree | software/busybox-1.15.2/archival/gzip.c:898 | with a total of sixteen bits no depth is above 22, and with as many symbols as a block can have none is above 18, so that eight bits are enough; and all weights fit into sixteen |
| TreeBuilder.GrowTree | software/busybox-1.15.2/archival/gzip.c:1220-1278 | the tree over the symbols that occur or are forced, with those bounds on depths and weights |
| DeflateCoder.BlockTotals | software/busybox-1.15.2/archival/gzip.c:1473-1490 | the frequencies of a block add up to the number of its tokens |
| DeflateHeader.ScanTotal | software/busybox-1.15.2/archival/gzip.c:1296-1342 | scanning a code counts no more symbols than it has lengths |
| HuffmanOptimal.MergingIsOptimal | software/busybox-1.15.2/archival/gzip.c:1252-1276 | no lengths that satisfy the Kraft inequality cost less than repeated merging of the two smallest weights |
| HuffmanBest.KraftInequality | software/busybox-1.15.2/archival/gzip.c:1252-1276 | every prefix code satisfies the Kraft inequality |
| HuffmanBest.HuffmanIsOptimal | software/busybox-1.15.2/archival/gzip.c:1204-1287 | lengths that were not cut cost no more than any prefix code for the symbols that occur |
| HuffmanTree.PathLength | software/busybox-1.15.2/archival/gzip.c:1073-1094 | the weighted path length is the sum of the inner weights |
| HuffmanTree.KraftExcess | software/busybox-1.15.2/archival/gzip.c:1075-1080 | cutting depths to the limit makes the Kraft sum too large by the number of inner nodes at or below the limit |
| HuffmanTree.CutNodes | software/busybox-1.15.2/archival/gzip.c:1075-1080 | the number of nodes that are cut is twice that excess |
| HuffmanRepair.OverflowIsTwiceExcess | software/busybox-1.15.2/archival/gzip.c:1075-1080 | the overflow counter of gen_bitlen is twice the Kraft excess |
| HuffmanLengths.FirstPass | software/busybox-1.15.2/archival/gzip.c:1065-1095 | lengths are depths cut to the limit, bl_count counts them, overflow counts the cut nodes, and both totals are exact |
| HuffmanRepair.CanMove | software/busybox-1.15.2/archival/gzip.c:1103-1107 | as long as there is excess, a leaf that can be moved down and one at the limit exist |
| HuffmanRepair.MoveDown | software/busybox-1.15.2/archival/gzip.c:1103-1113 | one repair step removes exactly one unit of excess |
| HuffmanRepair.Repair | software/busybox-1.15.2/archival/gzip.c:1102-1114 | the repair ends with a Kraft sum of exactly one, and has moved leaves down from a length only when no longer length below the limit had one: above the first length that lost leaves nothing has changed, and below it none has more than two, and all but the last in use at most one |
| HuffmanAssign.Reassign | software/busybox-1.15.2/archival/gzip.c:1121-1134 | the repaired counts are dealt out to all leaves, lengths 1 to the limit, never falling along the list, with the total kept exact |
| HuffmanGen.GenBitlen | software/busybox-1.15.2/archival/gzip.c:1050-1135 | lengths in 1..max_length for exactly the leaves, Kraft sum exactly one, exact totals, and the depths themselves if no code reaches the limit; lengths that were cut never fall as the symbols get rarer |
| HuffmanCodes.FirstFits | software/busybox-1.15.2/archival/gzip.c:1156-1158 | the 16-bit running code never overflows |
| HuffmanCodes.Apart | software/busybox-1.15.2/archival/gzip.c:1146-1179 | shorter codes precede longer ones and codes of one length follow the symbols (section 3.2.2 of RFC 1951), without overlap |
| HuffmanCodes.PrefixFree | software/busybox-1.15.2/archival/gzip.c:1146-1179 | no code is a prefix of another |
| HuffmanCodes.SymbolRead | software/busybox-1.15.2/archival/gzip.c:1146-1179 | the symbol that was sent is the only one that can be read |
| HuffmanCodes.NextCodes | software/busybox-1.15.2/archival/gzip.c:1156-1158 | the first code of every length |
| HuffmanCodes.GenCodes | software/busybox-1.15.2/archival/gzip.c:1146-1179 | every code is the canonical one, reversed |
| BitSeq.ReversedBits | software/busybox-1.15.2/archival/gzip.c:461-471 | a reversed code sent lowest bit first is the code sent highest bit first |
| BitSeq.BiReverse | software/busybox-1.15.2/archival/gzip.c:461-471 | bi_reverse is the reversal of the low bits |
| TreeBuilder.ForcedTotal | software/busybox-1.15.2/archival/gzip.c:1234-1243 | forced codes change the totals by exactly what build_tree subtracts |
| TreeBuilder.BuildTree | software/busybox-1.15.2/archival/gzip.c:1204-1287 | a complete code within the limit for exactly the symbols that occur or are forced, reversed canonical codes, totals exact for the symbols that occur; optimal among all prefix codes if no leaf of the tree lies below the limit; and depths of at most 18 and weights of at most sixteen bits for the totals that a block can have; a rarer symbol never has a shorter code than a more frequent one; the tree joins the first two roots every time; and if no leaf lies below the limit, the lengths are its depths |
| TreeBuilder.OptimalRare | software/busybox-1.15.2/archival/gzip.c:1204-1287 | in a code that no prefix code beats, a rarer symbol never has a shorter code |
| BitWriter.Writer.Put8 | software/busybox-1.15.2/archival/gzip.c:366-371 | one byte more in the output, across flushes of the buffer |
| BitWriter.Writer.Put16 | software/busybox-1.15.2/archival/gzip.c:374-383 | two bytes more, low byte first |
| BitWriter.Writer.FlushOutbuf | software/busybox-1.15.2/archival/gzip.c:354-361 | nothing is lost when the buffer is written out |
| BitWriter.Writer.SendBits | software/busybox-1.15.2/archival/gzip.c:433-455 | exactly the low bits of the value are appended, across the 16-bit buffer |
| BitWriter.Writer.BiWindup | software/busybox-1.15.2/archival/gzip.c:477-490 | the last byte is filled up with zero bits |
| BitWriter.Writer.CopyBlock | software/busybox-1.15.2/archival/gzip.c:496-515 | alignment, length, its complement and the bytes |
| DeflateTokens.OffsetsFit | software/busybox-1.15.2/archival/gzip.c:1887-1927 | the code of a length or distance (section 3.2.5 of RFC 1951) covers it, with room for the offset in the extra bits |
| DeflateTokens.TokenBack | software/busybox-1.15.2/archival/gzip.c:1538-1565 | the bits of a token are read back as that token |
| DeflateTokens.TokensBack | software/busybox-1.15.2/archival/gzip.c:1527-1570 | the bits of all tokens of a block and its end code are read back as exactly these tokens |
| DeflateTables.LengthTables | software/busybox-1.15.2/archival/gzip.c:1887-1900 | length_code and base_length are the tables of the format, with length 258 in its own code |
| DeflateTables.NearDistances | software/busybox-1.15.2/archival/gzip.c:1902-1909 | dist_code and base_dist for distances up to 256 |
| DeflateTables.FarDistances | software/busybox-1.15.2/archival/gzip.c:1911-1918 | dist_code and base_dist for larger distances, in steps of 128 |
| DeflateTables.SameBlock | software/busybox-1.15.2/archival/gzip.c:970-971 | dividing a distance by 128 loses nothing that D_CODE needs |
| DeflateTables.FixedLitLens | software/busybox-1.15.2/archival/gzip.c:1925-1946 | the static literal code is complete |
| DeflateTables.FixedDistLens | software/busybox-1.15.2/archival/gzip.c:1948-1952 | in the static distance code, the code of n is n |
| DeflateTables.StaticTrees | software/busybox-1.15.2/archival/gzip.c:1920-1952 | the static trees hold the reversed codes of the fixed codes of section 3.2.6 of RFC 1951 |
| DeflateTables.CtInit | software/busybox-1.15.2/archival/gzip.c:1873-1952 | all tables agree with the format for every length and every distance up to 32768 |
| DeflateRuns.RunsExpand | software/busybox-1.15.2/archival/gzip.c:1349-1401 | expanding the repeat codes 16, 17 and 18 gives back exactly the code lengths (section 3.2.7 of RFC 1951) |
| DeflateRuns.LengthsBack | software/busybox-1.15.2/archival/gzip.c:1349-1401 | the bits of the runs are read back as the lengths |
| DeflateRuns.ScanTree | software/busybox-1.15.2/archival/gzip.c:1296-1342 | counts exactly the symbols that send_tree sends |
| DeflateTrees.SendCode | software/busybox-1.15.2/archival/gzip.c:959-967 | SEND_CODE appends the bits of the code |
| DeflateTrees.SendTree | software/busybox-1.15.2/archival/gzip.c:1349-1401 | sends exactly the runs of the lengths |
| DeflateTrees.OrderBack | software/busybox-1.15.2/archival/gzip.c:1453-1456 | the bit length code is read back from its lengths in bl_order |
| DeflateTrees.HeaderBack | software/busybox-1.15.2/archival/gzip.c:1442-1464 | both codes are read back from the header of a dynamic block by a strict inflater, which asks for three complete codes and a code for the end of the block |
| DeflateTrees.SendAllTrees | software/busybox-1.15.2/archival/gzip.c:1442-1464 | sends exactly the header |
| DeflateHeader.SomeLength | software/busybox-1.15.2/archival/gzip.c:1421-1428 | the runs of a tree contain a plain length |
| DeflateHeader.CountBlCodes | software/busybox-1.15.2/archival/gzip.c:1421-1428 | at least four bit length codes are sent, and all that are not sent are unused |
| DeflateHeader.HeaderSize | software/busybox-1.15.2/archival/gzip.c:1430 | the size of the header from the frequencies |
| DeflateHeader.BuildBlTree | software/busybox-1.15.2/archival/gzip.c:1407-1434 | a header that can be sent, with complete codes, and opt_len grows by exactly its size; depths and weights fit |
| DeflateStandard.HeaderFields | software/busybox-1.15.2/archival/gzip.c:1449-1456 | in numbers: the header is the three counts and then the lengths of the bit length code in three bits each, of the symbols 16, 17, 18 and 0, and then of 8, 7, 9, 6 and so on, up to the last that is used |
| DeflateStandard.TreesFields | software/busybox-1.15.2/archival/gzip.c:776-777 | a header that is read has its lengths in that order |
| DeflateStandard.RepeatMeans | software/busybox-1.15.2/archival/gzip.c:1388-1394 | in numbers: 16 repeats the length before 3 to 6 times, 17 stands for 3 to 10 zeros and 18 for 11 to 138 |
| DeflateStandard.RunsGreedy | software/busybox-1.15.2/archival/gzip.c:1349-1401 | runs are as long as they can be: up to 138 zeros, and up to 6 repetitions of a length that has been sent |
| DeflateStandard.LengthTable | software/busybox-1.15.2/archival/gzip.c:760-763 | the closed form of the table of lengths in section 3.2.5 of RFC 1951 |
| DeflateStandard.DistanceTable | software/busybox-1.15.2/archival/gzip.c:766-769 | the closed form of the table of distances |
| DeflateStandard.FixedCodes | software/busybox-1.15.2/archival/gzip.c:1925-1946 | in numbers: the codes of the static tree, 8 bits from 48 on, 9 from 400 on, 7 from 0 on and 8 from 192 on |
| DeflateStandard.FixedDistances | software/busybox-1.15.2/archival/gzip.c:1948-1952 | in numbers: five bits for every distance code |
| DeflateStandard.NumberIs | software/busybox-1.15.2/archival/gzip.c:433-455 | numbers are sent lowest bit first |
| DeflateStandard.ByteBits | software/busybox-1.15.2/archival/gzip.c:374-383 | bits fill a byte from its lowest bit on |
| DeflateStandard.BlockTypes | software/busybox-1.15.2/archival/gzip.c:1633-1643 | in bits: after the bit for the last block, 00 starts a stored block, 10 a static and 01 a dynamic one |
| DeflateStandard.LetterA | software/busybox-1.15.2/archival/gzip.c:1638-1641 | the three bytes 75, 4 and 0 are the letter a |
| DeflateBuffers.StoredSnoc | software/busybox-1.15.2/archival/gzip.c:1473-1497 | l_buf, d_buf and flag_buf hold one more token |
| DeflateBuffers.SendMatch | software/busybox-1.15.2/archival/gzip.c:1545-1565 | length code, extra bits, distance code and extra bits of one match |
| DeflateBuffers.CompressBlock | software/busybox-1.15.2/archival/gzip.c:1527-1570 | exactly the bits of the tokens in the buffers, and the end of the block |
| DeflateBlocks.NextBlock | software/busybox-1.15.2/archival/gzip.c:1578-1649 | a block after correct output continues it correctly, or ends it |
| DeflateBlocks.FixedBlock | software/busybox-1.15.2/archival/gzip.c:1638-1641 | a static block means its tokens |
| DeflateBlocks.DynamicBlock | software/busybox-1.15.2/archival/gzip.c:1642-1648 | a dynamic block means its tokens |
| DeflateBlocks.StoredBlock | software/busybox-1.15.2/archival/gzip.c:1624-1637 | a stored block means its bytes, from any bit position |
| DeflateBlocks.BlockBits | software/busybox-1.15.2/archival/gzip.c:1471-1490 | the size of a block's tokens is what the frequencies add up to |
| DeflateCoder.FixedTotals | software/busybox-1.15.2/archival/gzip.c:1602 | static_len is exactly the size of the static block |
| DeflateCoder.BuildTrees | software/busybox-1.15.2/archival/gzip.c:1585-1602 | opt_len and static_len are exactly the sizes of the two codings of the block, and in all three trees the depths fit into eight bits and the weights into sixteen |
| DeflateCoder.StoredSize | software/busybox-1.15.2/archival/gzip.c:1633-1634 | the size of a stored block with its alignment, as flush_block computes it |
| DeflateCoder.Coder.CheapestSize | software/busybox-1.15.2/archival/gzip.c:1600-1624 | so the bits sent are at most a header and a byte more than any other kind would take |
| DeflateCoder.Coder.constructor | software/busybox-1.15.2/archival/gzip.c:1873-1957 | an empty block and correct tables |
| DeflateCoder.Coder.InitBlock | software/busybox-1.15.2/archival/gzip.c:982-1000 | an empty block |
| DeflateCoder.Coder.Record | software/busybox-1.15.2/archival/gzip.c:1473-1497 | the token is stored and its symbols are counted |
| DeflateCoder.Coder.CtTally | software/busybox-1.15.2/archival/gzip.c:1471-1523 | one token more; and the block must be sent exactly at 8191 tokens, or at a multiple of 4096 if less than half of them are matches and eight bits for each token and five with the extra bits for each distance come to less than half of the input |
| DeflateCoder.Coder.SendBlock | software/busybox-1.15.2/archival/gzip.c:1600-1649 | an inflater goes on to the output of the tokens, compressed_len is the number of bits sent, and of the three kinds of block the one that is sent takes no more bytes than any other that is available |
| DeflateCoder.Coder.FlushBlock | software/busybox-1.15.2/archival/gzip.c:1578-1660 | the block means its tokens, compressed_len is exactly the number of bits sent, at the end the value returned is the number of bytes, and the trees keep to their eight and sixteen bits; the block is the cheapest in that sense |
| GzSearch.Refill | software/busybox-1.15.2/archival/gzip.c:1797-1803 | enough lookahead or the end of the input; nothing changes that is counted from the start of the input |
| GzSearch.LmInit | software/busybox-1.15.2/archival/gzip.c:1828-1862 | the first bytes are in the window and the running hash value is good for the first string |
| GzSearch.Search | software/busybox-1.15.2/archival/gzip.c:1716-1746 | a match that is longer than the previous one is a match in the input; without a search, or if the best match is cut to three bytes by the lookahead or has three and is more than 4096 back, the length is 2, and otherwise it is the best length, cut to the lookahead; unless the limits of the search are met, nothing in reach is longer; with enough lookahead nothing after the window is read |
| GzSearch.WindowMatch | software/busybox-1.15.2/archival/gzip.c:1733-1737 | a match in the window is a match in the input as far as it lies in the input |
| GzSearch.SkipMatch | software/busybox-1.15.2/archival/gzip.c:1754-1771 | the strings inside a match are entered, and the position moves behind it |
| GzDeflate.Flush | software/busybox-1.15.2/archival/gzip.c:1684-1691 | at every flush, the tokens since the last one decode against all earlier output to exactly the bytes from block_start to strstart |
| GzDeflate.TakeMatch | software/busybox-1.15.2/archival/gzip.c:1747-1774 | a match that is output extends the tokens by exactly its bytes, and the block is sent exactly if it is full then |
| GzDeflate.TakeLiteral | software/busybox-1.15.2/archival/gzip.c:1775-1787 | a literal that is output extends the tokens by exactly its byte, and the block is sent exactly if it is full then |
| GzDeflate.Step | software/busybox-1.15.2/archival/gzip.c:1716-1794 | one round keeps the tokens, the pending match and the chains correct; it adds the match before if that has three bytes or more and the match found is not longer, and otherwise the byte before if that is still to come; what is found is as long as the search promises; and what it does to the window is stated exactly |
| GzDeflate.DeflateAll | software/busybox-1.15.2/archival/gzip.c:1706-1809 | what has been written inflates to the whole input, for every pattern of reads; the search and the hash read nothing after the window, unless the input ends 2 to 257 bytes before the end of the window; and on the inputs of GzOverrun they do |
| GzDeflate.Gzip | software/busybox-1.15.2/archival/gzip.c:1964-1992 | the compressed data inflate to the input, whatever the memory held and however the reads come; a read after the window is possible only for lengths that a caller can tell, 65279 to 65534 bytes or any number of half windows more, and it happens for an input of each of these lengths |
| GzDeflate.TailLength | software/busybox-1.15.2/archival/gzip.c:1727-1737 | only an input of such a length can have led to a read after the window |
| GzDeflate.ReadsPastWindow | software/busybox-1.15.2/archival/gzip.c:588-660 | for every length for which a read after the window is possible, an input of that length for which deflate does it, and of which the output inflates to the input all the same |
| GzOverrun.Fresh | software/busybox-1.15.2/archival/gzip.c:1699-1704 | no string at the start of that input occurs before, so that there is no match |
| GzOverrun.Go | software/busybox-1.15.2/archival/gzip.c:1716-1794 | every round of deflate keeps to the course: no match at first, then matches of 258 zeros in turn, and at the end a search that leaves the window |
| GzOverrun.Fill | software/busybox-1.15.2/archival/gzip.c:524-572 | so does fill_window, across all slides; the end of the input is noticed at a position from which the window does not slide |
| DebVersion.PolicyIsKeys | software/busybox-1.15.2/archival/dpkg.c:190-238 | the order of the policy is the order of keys: weights of the non-digits, ends of parts, and numbers |
| DebVersion.PolicyIsPreorder | software/busybox-1.15.2/archival/dpkg.c:190-238 | the order of section 5.6.12 of the Debian Policy Manual is antisymmetric in sign and transitive |
| DebVersion.PolicyMeans | software/busybox-1.15.2/archival/dpkg.c:201-238 | the order is decided at the first pair of parts that differ: by the non-digits as the policy words it, and then by the numbers |
| DebVersion.EarlierRest | software/busybox-1.15.2/archival/dpkg.c:201-238 | equal non-digits and numbers at the start do not matter |
| DebVersion.DigitsDecide | software/busybox-1.15.2/archival/dpkg.c:223-234 | after a common start without digits, strings of digits are ordered as numbers |
| DebVersion.CharactersDecide | software/busybox-1.15.2/archival/dpkg.c:190-198 | in character codes: tilde before the end, the end before all others, letters before what is no letter, and otherwise the smaller code first |
| DebVersion.LexicalMeans | software/busybox-1.15.2/archival/dpkg.c:190-198 | the order of order() on parts without digits is the one the policy words: at the first difference, tilde before the end of the part before letters before all others, and byte order among letters and among others |
| DebVersion.CompareLead | software/busybox-1.15.2/archival/dpkg.c:208-215 | the characters up to the next digit are compared lexically, with the end of a part between tilde and letters, and neither cursor passes the end |
| DebVersion.SkipZeros | software/busybox-1.15.2/archival/dpkg.c:217-220 | leading zeros do not change the number |
| DebVersion.CompareNumbers | software/busybox-1.15.2/archival/dpkg.c:217-234 | runs of digits of any length are compared as natural numbers |
| DebVersion.VersionComparePart | software/busybox-1.15.2/archival/dpkg.c:201-238 | terminates, reads nothing after the end of a string, and is negative, zero or positive exactly if the first version is earlier, equal or later in that order: equal non-digits leave it to the numbers, and equal numbers to the rest; a difference before the first digit is returned as it is |
| DebVersion.TwoApart | software/busybox-1.15.2/archival/dpkg.c:211-212 | the result is not only -1, 0 or 1: for the versions c and a it is 2 |
| DebCompare.VersionsPreordered | software/busybox-1.15.2/archival/dpkg.c:244-296 | epoch, upstream version and revision together are a total order |
| DebCompare.SplitMeans | software/busybox-1.15.2/archival/dpkg.c:249-289 | a version is its epoch and a colon, the upstream version, and a dash and the revision, where the epoch ends at the first colon and the revision begins after the last dash |
| DebCompare.VersionOrderMeans | software/busybox-1.15.2/archival/dpkg.c:244-296 | a version is earlier by its epoch, then by its upstream version, then by its revision |
| DebCompare.UpstreamDecides | software/busybox-1.15.2/archival/dpkg.c:267-291 | with equal epochs, an earlier upstream version makes the version earlier |
| DebCompare.NumbersDecide | software/busybox-1.15.2/archival/dpkg.c:298-316 | versions that are strings of digits are tested as numbers |
| DebCompare.VersionCompare | software/busybox-1.15.2/archival/dpkg.c:244-296 | has the sign of that order |
| DebCompare.TestVersion | software/busybox-1.15.2/archival/dpkg.c:298-316 | for each operator: less, less or equal, equal, more or equal, and more hold exactly if the first version is earlier, not later, neither, not earlier, and later; any always holds and null never |
| DebCompare.TestsAgree | software/busybox-1.15.2/archival/dpkg.c:298-316 | exchanging the versions reverses a test; less or equal is less or equal, and so is more; more is not less or equal; the strict test and equality are transitive |
| DebIntern.TableSizesPrime | software/busybox-1.15.2/archival/dpkg.c:49-60 | the sizes of the tables are the primes 16381 and 10007 |
| DebIntern.Reaches | software/busybox-1.15.2/archival/dpkg.c:160-163 | a step that is not zero, modulo a prime, reaches every slot |
| DebIntern.HashMeans | software/busybox-1.15.2/archival/dpkg.c:130-147 | the hash value in closed form: the sum, modulo 2^32, of each byte and the one before it, shifted by the product of the byte and its place modulo 24 |
| DebIntern.MakeHash | software/busybox-1.15.2/archival/dpkg.c:130-147 | the start is a slot and the step is not zero, with the 32-bit hash value of the key in closed form |
| DebIntern.Probe | software/busybox-1.15.2/archival/dpkg.c:156-164 | the search ends, at the first slot in its order that is free or holds what is wanted |
| DebIntern.ProbeEnds | software/busybox-1.15.2/archival/dpkg.c:156-164 | the search ends if and only if some slot is free or holds what is wanted; otherwise every slot it ever tries is one at which it goes on |
| DebIntern.NameTable.SearchName | software/busybox-1.15.2/archival/dpkg.c:150-167 | the number of a string: the one it has, or a new one; no other number changes its meaning; it is the first slot in the order of trying that is free or has the string |
| DebIntern.WantedMeans | software/busybox-1.15.2/archival/dpkg.c:329-334 | what the version of a package found is to the version asked for, for each operator |
| DebIntern.NameTable.InternAll | software/busybox-1.15.2/archival/dpkg.c:150-167 | over any run of lookups, repetitions included, equal strings get equal numbers and different strings different ones, and every number keeps its meaning, if there is room for the strings that are new |
| DebIntern.RoomNeeded | software/busybox-1.15.2/archival/dpkg.c:150-167 | no table that keeps its entries and has all the strings can do with less room than that |
| DebIntern.SearchPackage | software/busybox-1.15.2/archival/dpkg.c:318-343 | the first package in the order of trying with this name and a version that passes the test, or the free slot at which the search ends, whenever there is one of either; for each operator it is stated what its version is to the version asked for |
| UartRing.QueueGrows | software/camera/uart.c:88-92 | storing a byte changes nothing until the index moves; then the queue has one byte more at its end |
| UartTx.Transmitter.constructor | software/camera/uart.c:59-61 | an idle transmitter |
| UartTx.Transmitter.SendOldest | software/camera/isr.c:56-60 | the oldest byte of the queue goes to the holding register, which is empty |
| UartTx.Transmitter.ThreInterrupt | software/camera/isr.c:52-69 | bytes leave the queue in order, and the running flag is cleared only when queue and holding register are empty |
| UartTx.Transmitter.Interleave | software/camera/isr.c:52-69 | whatever happens at a point of interleaving, the invariant holds and room does not shrink; while the interrupt is disabled the queue does not change; and with one interrupt more than there are characters in the queue, each after the holding register has been emptied, all that was accepted is sent and the transmitter stops |
| UartTx.Transmitter.Putch | software/camera/uart.c:72-104 | for every interleaving: refused exactly if the queue is full, otherwise accepted; accepted characters are sent or queued in order; the holding register is never overwritten |
| UartTx.Transmitter.Space | software/camera/uart.c:106-114 | the number of free slots |
| UartTx.Transmitter.Write | software/camera/uart.c:126-134 | all or nothing, refused exactly if there is not enough room; -2 is never returned |
| UartRx.ReceiveKeeps | software/camera/isr.c:34-50 | the receive interrupt keeps what is queued and appends what fits |
| UartRx.GetchKeeps | software/camera/uart.c:154-164 | uart0Getch takes exactly the oldest byte and keeps what arrives meanwhile, if the index does not pass the end of the buffer or there is room for what arrives between its two updates |
| UartRx.TooMany | software/camera/uart.c:161-162 | a case in which bytes are lost: more bytes than there is room for arrive while the index is out of range |
| UartRx.GetchExact | software/camera/uart.c:161-162 | that condition is exact: it holds if and only if nothing is lost, whatever the bytes are |
| UartRx.Receiver.ReceiveInterrupt | software/camera/isr.c:34-50 | each byte is stored, and kept if the next index is not the extract index |
| UartRx.Receiver.Getch | software/camera/uart.c:154-164 | -1 exactly if the queue is empty, otherwise the oldest byte, and the state after both updates with an interrupt between them |

## Left out

- The decoder on malformed LZO streams: the model has the error codes that the program returns, and a code of its own
  for reads of operand bytes that the program does not check; nothing is claimed about those.
- The CRC-32 of gzip and lzop: the table is made by code that is not part of this model.
- The headers and trailers of gzip and lzop files, option parsing, and everything that opens, renames or removes files.
- The LZO1Y and LZO1Z variants, the COPY_DICT variant, and copies of four bytes at a time: the byte loops do the same.
- LzoOptimize.Optimize: output room is that of the caller; blocks that do not decode are not given to it by lzop.
- The 32-bit counters of gzip for the size of the whole output and input are unbounded here. The 16-bit code values of
  gen_codes, the 16-bit bit buffer, the 16-bit length of a stored block and the 32-bit sums of Adler-32 are modelled as such.
- The depth of a subtree in build_tree is an 8-bit number and the frequency of a node a 16-bit number in the program; here
  both are natural numbers. HuffmanDepth.NarrowTree shows that they fit for every total of frequencies below 65536.
- The arrays of heads and links, of symbol frequencies and of code lengths are sequences that are reassigned; the heap,
  the token buffers, the output buffer and the ring buffers are arrays.
- GzWindow.Window.LongestMatch: the program may read after the window once the input has ended; the model gives the window
  262 bytes more memory with arbitrary contents, which the program does not allocate.
- LzopBlock.ReadBlock: a block that lzop has not written may make the decoder overwrite bytes that it has still to read;
  the model asks that this does not happen, and says nothing about what such a block decodes to.
- The check for a stored file in flush_block: the output is never seekable, so that this branch is dead.
- uart0TxFlush, which discards the queue without stopping the transmitter, and the baud rate and pin registers.
- UART1: the same code with other names and sizes, except that uart1Putch does not mask all interrupts around its two
  changes of the interrupt enable register. No handler changes that register, and the models let interrupts come there
  anyway. They take the size of the buffer as a parameter.
- LzoSwd.Swd.FindMatch: the first position on a chain is shown not to be passed over; of the later ones, on which the
  search may give up early, only what it reports is shown to be true.
- DebCompare.VersionCompare: the value of an epoch that does not fit an int is undefined in the program; the model takes the
  number as it is written.
- DebIntern.NameTable.SearchName: asks for a free slot or the string, because the program's search does not end otherwise
  (DebIntern.ProbeEnds).
- The status table of dpkg, which is searched by the same loop, and the parsing of dependencies, scripts and control files.
