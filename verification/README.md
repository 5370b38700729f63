# The compressor, the decompressor and three smaller cores of BusyBox, in Dafny

The project models the DEFLATE codec of `gzip.c` and `gunzip.c` and proves that it gives every input back, with what
each of its parts owes to that: the bit stream, canonical prefix codes and the multi-level tables that decode them, the
Huffman construction with its length limit, the coded code lengths, the LZ77 parse over a sliding window with hash
chains, and the choice and size of blocks. Beside it stand the CRC, the MD5 context of `md5sum.c`, the bad-block inode
of `mkfs_minix.c` and the evaluator of `expr.c`.

`dafny verify dfyconfig.toml` checks everything.

## How it is laid out

The compressor and the decompressor share no data structure. What lies between them is RFC 1951 as a function on bit
strings: `Rfc1951.Inflated` says what a stream decodes to and where it ends. `PrefixCodes` gives the canonical codes of
its section 3.2.2 as stretches of the line 0 .. 2^16.

- Bits: `Bits`, `BitWriting` (send_bits, bi_windup, copy_block), `BitReading` (NEEDBITS, DUMPBITS, undoing lookahead),
  `BitRoundTrips`.
- Decoding: `HuftTables`, `HuftSteps`, `HuftWalk`, `HuftLoop`, `HuftCounting`, `HuftSizing`, `HuftExactness`,
  `HuftState` and `HuftBuilding` are huft_build; `LengthOrders`, `OutputWindows`, `InflatingCodes` and `Inflating` the rest
  of inflate. `FixedCodes` and `FormatAnswers` are about the fixed codes.
- Encoding: `Trees` (gen_codes, bi_reverse), `CodeLengths` (scan_tree, send_tree), `Sums`, `Huffman`, `HuffmanRuns`,
  `Heaps`, `Merging`, `BitLengths`, `FirstPass`, `SecondPass`, `Forcing` and `TreeBuilding` (build_tree and gen_bitlen),
  `Tokens` and `Blocks` (what the bits of a block decode to), `TokenCounts`, `TreeFacts`, `BlockCodes`, `CodeTables`, `TallyBuffers`
  and `BlockOutput` (ct_init, ct_tally, flush_block), `HashChains`, `Parsing`, `LazyParsing` (what each search of a run
  comes to and what is taken of it) and `Deflating` (deflate).
- `RoundTrips` joins the two.
- `Crc` and `CrcValues`; `Md5`, `Md5Bits` (its functions bit by bit) and `Md5Answers` (a digest worked out); `ZoneMaps` and
  `BadInodes`; `ExprSpec`, `ExprLaws` (its operators by their words) and `Exprs`. `MachineWords` gives 32-bit words as numbers.

Code that updates variables is a class or a method here, with the same steps; its contract ties it to a function of the
input, and lemmas are about that function. Positions in the window stand for input bytes `base + p`, so a slide of the
window is a change of `base`. Words are natural numbers with the reduction written out. Most lemmas begin with `hide *`
and name the facts they use; that keeps each proof small.

## Model

| member | source | states |
|---|---|---|
| RoundTrips.RoundTrip | rg/pkg/busybox/gunzip.c:1051-1089 | For every input, however read hands it out, and any trailer of at least two bytes: inflating what deflate wrote returns 0, gives exactly the input, and leaves inptr at the first byte after the compressed data |
| RoundTrips.Compress | rg/pkg/busybox/gzip.c:1472-1580 | By the format's own meaning, every continuation of the bytes written decodes to the input and ends at the last block's last bit; the tokens of the run expand to the input with every match in reach, and they are those of a lazy parse (`LazyParsing.Lazily`) |
| RoundTrips.Decompress | rg/pkg/busybox/gunzip.c:1051-1089 | Whatever the format decodes (with 16 bits to spare) is decoded to the same bytes, with the same end |
| BitWriting.BitWriter.SendBits | rg/pkg/busybox/gzip.c:820-843 | All bits sent so far are followed by exactly the low `length` bits of the value, first bit lowest |
| BitWriting.SendSpills | rg/pkg/busybox/gzip.c:829-837 | When the buffer overflows, the 16 bits put out and the bits kept together are the buffered bits followed by the value |
| BitWriting.BitWriter.Windup | rg/pkg/busybox/gzip.c:865-877 | The bytes put out are all bits sent, padded with zeros to a byte boundary, and the buffer is empty |
| BitWriting.BitWriter.CopyBlock | rg/pkg/busybox/gzip.c:883-909 | After alignment, the length and its complement if asked for, and the bytes themselves follow what was sent |
| BitReading.BitReader.NeedBits | rg/pkg/busybox/gunzip.c:139-141 | The position 8*inptr - k does not move, n bits are buffered exactly if the input has them, and never more than n + 7 are |
| BitReading.BitReader.UndoLookahead | rg/pkg/busybox/gunzip.c:1073-1079 | inptr ends at the first byte that no bit was taken from |
| BitRoundTrips.FieldsRoundTrip | rg/pkg/busybox/gzip.c:820-877 | Any values of 0 to 16 bits, sent and wound up, are read back in order by NEEDBITS and DUMPBITS, whatever follows, and the reader lands on the byte after them |
| PrefixCodes.PrefixFree | rg/pkg/busybox/gzip.c:2535-2570 | Canonical codewords of a list of lengths within Kraft's inequality: none is a prefix of another |
| Trees.BiReverse | rg/pkg/busybox/gzip.c:849-860 | The result's low bits, first bit lowest, are the code's bits, first bit highest |
| Trees.GenCodes | rg/pkg/busybox/gzip.c:2535-2570 | Every symbol gets the canonical codeword of its length, bit-reversed, and nothing else changes; the 16-bit counters do not wrap |
| Trees.LastCodeAllOnes | rg/pkg/busybox/gzip.c:2550-2554 | For a complete list the code counter at MAX_BITS ends at 2^MAX_BITS, which the source asserts |
| Trees.LastCodeword | rg/pkg/busybox/gzip.c:2550-2554 | For a complete list the last codeword of the greatest length is all ones |
| HuftBuilding.HuftBuild | rg/pkg/busybox/gunzip.c:529-709 | 2 exactly for oversubscribed lengths, 1 exactly for incomplete ones whose longest is over one bit, else 0; the first table has `TableWidth(b, m)` bits; whenever there are tables, for complete and incomplete lists alike, they decode the canonical code (and give an invalid entry where no codeword is) if and only if `Straight(b, TableWidth(b, m))`, and which input is misread otherwise is said too; every list that `Suits` the width is decoded |
| HuftBuilding.MisreadExample | rg/pkg/busybox/gunzip.c:638-649 | Lengths 1, 2, 3, 3 with one index bit: huft_build returns 0, and everything that starts with the last codeword 111 is not decoded |
| HuftExactness.SomeBent | rg/pkg/busybox/gunzip.c:638-649 | Those lengths are complete and not straight: the codeword 111 goes on after its second bit and only 10 lies beside it |
| HuftExactness.TableFits | rg/pkg/busybox/gunzip.c:638-649 | For the width the search finds: some code under the table's prefix shows a one at an index bit beyond the l that are linked exactly when the list of lengths says so by itself |
| HuftExactness.FlagMisses | rg/pkg/busybox/gunzip.c:735-746 | Whenever the lengths are not straight there is an input that the walk from the first table does not decode |
| HuftExactness.CodeMisses | rg/pkg/busybox/gunzip.c:735-746 | Nothing that starts with a code that goes on with a one just beyond the linked bits of such a prefix is decoded |
| HuftExactness.WalkFound | rg/pkg/busybox/gunzip.c:735-746 | When no table has such codes, walking the tables, wide ones too, consumes exactly the bits of the unique codeword at the front of the input and yields that symbol's entry, or an invalid one when there is no codeword there |
| HuftSizing.TableBits | rg/pkg/busybox/gunzip.c:638-649 | The width the search finds leaves no code of the prefix without an index, unless it is the full width; it says exactly when it exceeds the full width |
| HuftSteps.FillStep | rg/pkg/busybox/gunzip.c:690-693 | Storing one code's entries at every index that starts with it makes all cells up to the end of its stretch right and keeps the table stack |
| HuftState.PopOne | rg/pkg/busybox/gunzip.c:700-704 | When the next code does not continue the top table's prefix, that table is finished, and there is one below it |
| HuftLoop.IncrementReversed | rg/pkg/busybox/gunzip.c:695-698 | The bit-reversed code becomes the bit-reversed next code of that length |
| HuftCounting.UnusedCodes | rg/pkg/busybox/gunzip.c:595-601 | Negative exactly for oversubscribed lengths, zero exactly for complete ones, else the number of unused codes of the greatest length |
| FormatAnswers.FixedTable | rg/pkg/busybox/gzip.c:2323-2341 | The canonical codes of the fixed lengths are those of the table in section 3.2.6 of RFC 1951 |
| FormatAnswers.EightBytes | rg/pkg/busybox/gunzip.c:824-867 | The five bytes 4b 4c 84 00 00 stand for eight bytes 'a' by the format, worked out bit by bit: two literals and a match |
| Inflating.SuitsLit | rg/pkg/busybox/gunzip.c:982-990 | Nine index bits suit every list of lengths up to 15: no second-level table of the literal code is too wide |
| Inflating.SuitsDist | rg/pkg/busybox/gunzip.c:991-1000 | Six index bits suit every distance code the format allows |
| LengthOrders.OrderRead | rg/pkg/busybox/gunzip.c:198-200 | The lengths of the code length code that n fields say: the first four are of symbols 16, 17, 18 and 0, field 4 + 2k of 8 + k, field 3 + 2k of 8 - k, and what is not sent is 0 |
| Inflating.ReadOrderedLengths | rg/pkg/busybox/gunzip.c:918-924 | The loop over border reads exactly these |
| InflatingCodes.Lookup | rg/pkg/busybox/gunzip.c:735-746 | Reading with lookahead reaches the entry of the walk and stops before that entry's own bits |
| OutputWindows.OutputWindow.CopyMatch | rg/pkg/busybox/gunzip.c:784-811 | For any length and any distance up to WSIZE and the bytes produced, the chunked, overlapping and flushing copy appends exactly out[i] = out[i - dist], byte after byte |
| OutputWindows.ChunkCopies | rg/pkg/busybox/gunzip.c:786-806 | One chunk moved inside the circular window, by memcpy or byte by byte, is that many bytes of the copy |
| Inflating.InflateDynamic | rg/pkg/busybox/gunzip.c:869-1010 | A dynamic block is decoded as section 3.2.7 of RFC 1951 says, code lengths and repeats included |
| Inflating.InflateBlock | rg/pkg/busybox/gunzip.c:1013-1049 | Every block the format decodes gives the same output, last-block flag and end |
| Inflating.Inflate | rg/pkg/busybox/gunzip.c:1051-1089 | Every stream the format decodes gives 0, the same output, and inptr after its last byte |
| CodeLengths.RunsRoundTrip | rg/pkg/busybox/gzip.c:2720-2773 | The decoder's expansion of the symbols of two length arrays, one after the other, is exactly both arrays |
| CodeLengths.LengthsRead | rg/pkg/busybox/gunzip.c:934-973 | The same on bits: reading the coded symbols of both arrays gives both and ends after them |
| CodeLengths.SendTree | rg/pkg/busybox/gzip.c:2720-2773 | The bits sent are the codewords and extra bits of the run symbols of the lengths |
| CodeLengths.ScanTree | rg/pkg/busybox/gzip.c:2672-2714 | The frequencies grow by exactly the symbols that send_tree sends later |
| Heaps.PqDownHeap | rg/pkg/busybox/gzip.c:2401-2425 | The heap order that held below k holds from k on, with the same members |
| Heaps.TopLeast | rg/pkg/busybox/gzip.c:2401-2425 | In an ordered heap no node is less frequent than the top one |
| TreeBuilding.TreeBuilder.PqRemove | rg/pkg/busybox/gzip.c:2380-2385 | Takes a node of least frequency; the others stay, in heap order |
| TreeBuilding.TreeBuilder.JoinLeast | rg/pkg/busybox/gzip.c:2628-2653 | One round joins two nodes of least frequency under a new one and keeps all that is known of the tree |
| Huffman.MakeSiblings | rg/pkg/busybox/gzip.c:2628-2653 | Any lengths within Kraft's inequality can be changed at no cost so that two least frequent symbols are siblings |
| Huffman.MergeOptimal | rg/pkg/busybox/gzip.c:2628-2653 | Lengths optimal after joining two least frequent symbols are optimal before |
| Huffman.HuffmanOptimal | rg/pkg/busybox/gzip.c:2628-2653 | The depths of any run that always joins two least frequent nodes minimise the sum of frequency times length over all lengths meeting Kraft's inequality |
| TreeBuilding.TreeBuilder.FirstLengths | rg/pkg/busybox/gzip.c:2459-2483 | The first pass gives every leaf its depth cut at the limit, counts each length, counts the overflow, and adds exactly the bits to opt_len and static_len |
| BitLengths.ShorterExists | rg/pkg/busybox/gzip.c:2490-2492 | While there is overflow some length below the limit is in use, so the search for one stays in range |
| BitLengths.MoveOne | rg/pkg/busybox/gzip.c:2489-2500 | One repair move keeps the number of codes and takes two from the overflow |
| TreeBuilding.TreeBuilder.RepairCounts | rg/pkg/busybox/gzip.c:2488-2500 | The repair ends with the same number of codes, all within the limit, and Kraft sum exactly 1 |
| SecondPass.FrequentShorter | rg/pkg/busybox/gzip.c:2507-2524 | After the lengths are dealt out again, no symbol has a longer code than a less frequent one |
| SecondPass.ListComplete | rg/pkg/busybox/gzip.c:2507-2524 | The lengths form a complete code, counted by bl_count |
| TreeBuilding.TreeBuilder.GenBitlen | rg/pkg/busybox/gzip.c:2437-2525 | All lengths from 1 to the limit, the depths themselves if none is too great, otherwise none longer for being more frequent; the code is complete; opt_len and static_len grow by exactly its cost |
| TreeBuilding.TreeBuilder.BuildTree | rg/pkg/busybox/gzip.c:2580-2665 | For every frequency table: the depths in the tree are lengths of a prefix code and none costs less; they are the lengths when none exceeds the limit, otherwise a complete limited code is, no symbol longer for being more frequent; canonical codes, and opt_len and static_len free of the forced codes |
| CodeTables.LengthTables | rg/pkg/busybox/gzip.c:2289-2302 | Every match length gets the band of the format |
| CodeTables.DistTables | rg/pkg/busybox/gzip.c:2304-2319 | Every distance gets the band of the format, through both halves of the table |
| TokenCounts.TokensSize | rg/pkg/busybox/gzip.c:2966-2975 | The bits of a block are the sum over symbols of tallied frequency times code and extra bits |
| TreeFacts.BlockSize | rg/pkg/busybox/gzip.c:2476-2480 | So the size of a block's tokens is the cost build_tree computed |
| TreeFacts.StoredFits | rg/pkg/busybox/gzip.c:2878-2923 | Whenever a stored block is chosen its length is below 2^16 |
| BlockOutput.BlockWriter.Tally | rg/pkg/busybox/gzip.c:2959-3011 | The token is appended, to the block and to the run, and its symbols counted; the block is to be flushed if and only if l_buf has one place of its 8192 left or, after a multiple of 4096 tokens, fewer than half are matches and the guessed size is below half of the input (`TokenCounts.Profits`) |
| TokenCounts.GuessIs | rg/pkg/busybox/gzip.c:2987-2996 | The sum over the distance frequencies is 8 bits for each token of the block and 5 and the extra bits for each distance |
| BlockOutput.BlockWriter.CompressBlock | rg/pkg/busybox/gzip.c:3017-3063 | The bits sent are the codewords and extra bits of the buffered tokens and the end of block |
| BlockCodes.GoodCheapest | rg/pkg/busybox/gzip.c:2580-2665 | What build_tree makes costs no more than any other prefix code for the same frequencies, forced codes or not, unless some code that costs least goes beyond the limit |
| BlockCodes.CheapestShortest | rg/pkg/busybox/gzip.c:2860-2877 | Codes that cost least for the frequencies of both alphabets make the block's bits, extra bits and end of block included, as few as any two prefix codes can |
| BlockCodes.CheapestRuns | rg/pkg/busybox/gzip.c:2782-2812 | The same for the code length code and the run symbols of both trees |
| BlockOutput.BlockWriter.BuildTrees | rg/pkg/busybox/gzip.c:2860-2877 | opt_len is exactly the bits of the tree header and the tokens with the new codes, static_len that of the tokens with the fixed ones; no other codes make the tokens shorter, unless an optimal one goes beyond 15 bits, nor the run symbols, unless an optimal one goes beyond 7 |
| BlockOutput.BlockWriter.SendAllTrees | rg/pkg/busybox/gzip.c:2815-2839 | The counts, the code length code and both run-coded trees follow what was sent |
| Blocks.OrderSent | rg/pkg/busybox/gzip.c:2829-2832 | In what is sent the first four fields are of symbols 16, 17, 18 and 0, field 4 + 2k of 8 + k, field 3 + 2k of 8 - k |
| BlockOutput.BlockWriter.WriteBlock | rg/pkg/busybox/gzip.c:2878-2941 | The block decodes to its input by the format; the form taken is the shortest in whole bytes, stored first, then fixed; compressed_len is the number of bits sent |
| BlockOutput.BlockWriter.FlushBlock | rg/pkg/busybox/gzip.c:2846-2953 | The block decodes to its input, the next one is open, and the size returned is that of the bits sent, aligned at the end |
| Blocks.DynamicRead | rg/pkg/busybox/gzip.c:2937-2941 | A dynamic block's bits decode to what its tokens stand for |
| Blocks.LastBlockRead | rg/pkg/busybox/gzip.c:1579 | Blocks decoded one after the other and a last one: the whole stream decodes |
| HashChains.ThirdByte | rg/pkg/busybox/gzip.c:1326-1338 | Equal hashes and equal first two bytes make equal third bytes, so the third comparison can be skipped |
| HashChains.SlideChains | rg/pkg/busybox/gzip.c:1423-1447 | After the slide every chain links, at its new base, the same positions that are still in the window, each the latest of its hash before the next |
| HashChains.FollowLink | rg/pkg/busybox/gzip.c:1366-1367 | Every link leads to the latest earlier position with the same hash of three bytes, or ends the chain when there is none in the window but perhaps its first |
| HashChains.InsertLinks | rg/pkg/busybox/gzip.c:1168-1171 | Inserting the next string, linked to the head of its hash, keeps that |
| Deflating.Deflater.LongestMatch | rg/pkg/busybox/gzip.c:1242-1370 | The result is prev_length with match_start unchanged, or a longer match that is equal as far as there is input, at most MAX_DIST back; of the positions with the same hash from `low` on no match is longer and no later one as long, and these are all in reach, or exactly as many as may be looked at, or the length is 258 |
| Deflating.Deflater.FindMatch | rg/pkg/busybox/gzip.c:1493-1515 | The match used at a string is the one that longest_match finds, cut at the end of the input and dropped when it is 3 bytes long and more than 4096 back: `Sought` says exactly which that is |
| Deflating.Deflater.FillWindow | rg/pkg/busybox/gzip.c:1407-1457 | The window shows the input, chains and all; at least one byte more is there, or the end of the input |
| Deflating.Deflater.Step | rg/pkg/busybox/gzip.c:1485-1575 | One string further: all input up to it, but for a byte still undecided, is in blocks or in tokens, and a match that may still be adopted is genuine; the pending match is tallied if the search at this string has nothing longer, otherwise the byte before it is |
| Deflating.Deflater.Deflate | rg/pkg/busybox/gzip.c:1472-1580 | The run ends; the bits decode to the input; the tokens passed to ct_tally over the whole run expand to exactly the input, every match of length 3 to 258 and distance 1 to MAX_DIST and no more than the bytes before it; a literal stands only where the search found nothing to keep or the next one found more, a match is what was found for it and the next search found no more |
| LazyParsing.LiteralMeans | rg/pkg/busybox/gzip.c:1517-1562 | Where a literal stands although four bytes or more repeat something in reach, the next string was found to have a longer match |
| LazyParsing.MatchMeans | rg/pkg/busybox/gzip.c:1517-1541 | Where a match stands, no match in reach is longer there or at the next string, and no nearer one is as long |
| LazyParsing.EightEqual | rg/pkg/busybox/gzip.c:1472-1580 | Eight equal bytes have one lazy parse: two literals and a match of length 6 and distance 1 |
| Parsing.AllInReach | rg/pkg/busybox/gzip.c:1485-1579 | That last clause from the invariant kept by every token |
| Lz77.CopyIs | rg/pkg/busybox/gzip.c:1519-1525 | A stretch that repeats what lies dist bytes before it is what a match of that distance copies |
| Crc.ByTable | rg/pkg/busybox/gunzip.c:416 | A table step is eight steps of the shift register for polynomial 0xEDB88320 |
| Crc.RegisterConcat | rg/pkg/busybox/gunzip.c:413-419 | The register over a concatenation is the register over the parts in turn |
| Crc.Checker.UpdCrc | rg/pkg/busybox/gunzip.c:375-421 | The register becomes that of the bytes and the result its complement, or the start value again |
| Crc.CheckPieces | rg/pkg/busybox/gunzip.c:375-421 | Over any chunking updcrc gives the CRC of the whole |
| CrcValues.Residue | rg/pkg/busybox/gunzip.c:375-421 | Any byte string followed by its own check value, low byte first, has the check value 0x2144df1c |
| CrcValues.ZeroByte | rg/pkg/busybox/gunzip.c:380-420 | The check value of a single zero byte is 0xd202ef8d: the register starts with ones and is complemented |
| Md5.Md5Ctx.ProcessBytes | rg/pkg/busybox/md5sum.c:317-352 | The context stands for the message so far and the new bytes, for calls of any length: blocks folded, rest buffered (at most 64 of its 128 bytes); the bytes are counted right if and only if `Countable` holds before the call |
| Md5.Md5Ctx.FinishCtx | rg/pkg/busybox/md5sum.c:223-246 | The digest is the fold over the message padded as in sections 3.1 to 3.4 of RFC 1321, with its bit length mod 2^64 |
| Md5.CountExact | rg/pkg/busybox/md5sum.c:379-385 | The two-word counter is right after adding len exactly if the low word plus len is below 2^33: a len of 2^32 or more always carries 1 |
| Md5.CountWrong | rg/pkg/busybox/md5sum.c:379-385 | 2^33 bytes on a new context leave 1 in the high word instead of 2 |
| Md5.Md5Pieces | rg/pkg/busybox/md5sum.c:317-352 | Any split of a message over calls, each of which the counter can count when its turn comes, gives the digest of the whole |
| Md5.ShortCountable | rg/pkg/busybox/md5sum.c:379-385 | Pieces below 2^32 bytes can always be counted, however many there are |
| Md5.Md5Stream | rg/pkg/busybox/md5sum.c:251-298 | The digest of the file, however fread hands it out |
| Md5.Md5Buffer | rg/pkg/busybox/md5sum.c:303-315 | The digest of the buffer, for every length that the counter of a new context gets right: all below 2^33 |
| Md5Bits.RotateBit | rg/pkg/busybox/md5sum.c:411 | Bit i of a word rotated by s is bit (i + 32 - s) mod 32 of the word |
| Md5Bits.RotateBack | rg/pkg/busybox/md5sum.c:411 | Rotating by s and then by 32 - s gives the word back |
| Md5Bits.FunctionBits | rg/pkg/busybox/md5sum.c:357-361 | Bit by bit, F chooses by x between y and z, G by z between x and y, H is the parity, I is y exclusive-or (x or not z) |
| MachineWords.SumValue | rg/pkg/busybox/md5sum.c:399-408 | Addition of 32-bit machine words is addition modulo 2^32 of the numbers they stand for |
| Md5Answers.OpValue | rg/pkg/busybox/md5sum.c:399-408 | One operation on machine words, with their own shifts and sums, is that of the standard on the numbers |
| Md5Answers.Alphabet | rg/pkg/busybox/md5sum.c:303-315 | The digest of the 26 letters is the one printed in section A.5 of RFC 1321, by all 64 operations in turn |
| ZoneMaps.ZoneMap.Mark | rg/pkg/busybox/mkfs_minix.c:245-257 | Exactly that zone's bit is set |
| BadInodes.Mkfs.CheckBlocks | rg/pkg/busybox/mkfs_minix.c:648-677 | Exactly the defective zones are marked; it fails exactly when one lies before the data area |
| BadInodes.Mkfs.GetFreeBlock | rg/pkg/busybox/mkfs_minix.c:358-375 | The next good zone, in order; fails exactly when the table is full or there is none |
| BadInodes.Mkfs.MakeBadInode | rg/pkg/busybox/mkfs_minix.c:395-443 | Completes exactly when there is room for the indirect blocks; then the pointers enumerate the bad zones, and the indirect blocks are the next good zones, in order |
| BadInodes.MakeFilesystem | rg/pkg/busybox/mkfs_minix.c:395-443 | The whole run: when it completes, and then a zone is listed in the inode if and only if it is defective, in ascending order, its size fits, the root block and all indirect blocks are distinct good zones, and exactly those are marked besides |
| BadInodes.IndirectDistinct | rg/pkg/busybox/mkfs_minix.c:358-443 | Indirect blocks that are the good zones after the first are good, distinct, and not the root directory's |
| BadInodes.Layout | rg/pkg/busybox/mkfs_minix.c:403-439 | In numbers: blocks 0 to 6 are direct, 7 to 518 are words of the single indirect block, block n above is word (n - 519) mod 512 of the block in word (n - 519) / 512 of the double indirect one |
| BadInodes.IndirectNumbers | rg/pkg/busybox/mkfs_minix.c:395-443 | In numbers: up to 7 bad blocks need no indirect block, up to 519 one, more than that two and one for every 512 begun; 260615 bad blocks are the most, however many good ones there are |
| ExprSpec.ReadBack | rg/pkg/busybox/expr.c:396-535 | At every level, evaluating a tree printed with minimal parentheses, before anything that does not bind tighter, gives its meaning and what follows |
| ExprSpec.PrintedTree | rg/pkg/busybox/expr.c:519-535 | The whole of it: every token is consumed, and the meaning is the result, or the run dies exactly when the meaning is an error |
| ExprLaws.RightFirst | rg/pkg/busybox/expr.c:396-535 | With operators named by their words: of two operators the one on the right goes first if it binds tighter, in the order of eval to eval5 |
| ExprLaws.LeftFirst | rg/pkg/busybox/expr.c:396-535 | Otherwise the one on the left does, also when both bind alike |
| ExprLaws.ProductsFirst | rg/pkg/busybox/expr.c:414-463 | a + b * d, a - b * d, a * b + d and a * b - d are these numbers |
| ExprLaws.Sums | rg/pkg/busybox/expr.c:440-463 | a - b - d, a - b + d and a + b - d go from left to right |
| ExprLaws.Divisions | rg/pkg/busybox/expr.c:225-243 | / and % give the one quotient and remainder of which the remainder has the sign of the dividend; zero is an error |
| ExprLaws.Comparisons | rg/pkg/busybox/expr.c:191-210 | The seven comparisons are those of the numbers |
| ExprLaws.Truths | rg/pkg/busybox/expr.c:498-535 | The operators for or and and give their operands as they do; only the empty word and 0 are null |
| ExprLaws.Keywords | rg/pkg/busybox/expr.c:327-392 | match is the operator :, and length, index and substr take their operands in order |
| ExprLaws.IndexPlace | rg/pkg/busybox/expr.c:355-364 | index gives the first place, from 1, of a character that is in the set, 0 if there is none |
| ExprLaws.SubstringOf | rg/pkg/busybox/expr.c:365-386 | substr gives the characters from that place on, as many as asked for or there are |
| ExprLaws.AtoiOf | rg/pkg/busybox/expr.c:161-181 | A word is read as blanks, a sign and digits in base ten, up to the first other character |
| ExprLaws.PrintedBack | rg/pkg/busybox/expr.c:146-157 | A number printed is read back as itself |
| Exprs.Evaluator.Eval | rg/pkg/busybox/expr.c:519-535 | The loop over the shared cursor is the recursive evaluation of its level |
| Exprs.Evaluator.Eval4 | rg/pkg/busybox/expr.c:414-436 | So is that for *, / and % |
| Exprs.Evaluator.Eval3 | rg/pkg/busybox/expr.c:440-460 | And that for + and - |
| Exprs.Evaluator.Eval2 | rg/pkg/busybox/expr.c:464-494 | And that for the comparisons |
| Exprs.EvaluatePrinted | rg/pkg/busybox/expr.c:76-96 | expr on the printed tree gives the tree's meaning |

## Findings

- The tables of huft_build do not decode every code. The loop that looks for a smaller table (`gunzip.c:643`) starts past
  the full width when the first code of a prefix has exactly or more than l bits left, so a table of the second level or
  beyond can get more than l index bits while it links only indices of l bits. `HuftBuilding.HuftBuild` says exactly for
  which lengths, complete or not, the tables are wrong: those that are not `Straight` for the width `TableWidth(b, m)`,
  which can be computed from the lengths before the call. `MisreadExample` is the smallest case.
- The program is not affected: the widths it asks for (9 and 6 for dynamic codes, 7 and 5 for fixed ones, 7 for the code
  length code) meet `Suits` for every list of lengths the format allows (`Inflating.SuitsLit`, `SuitsDist`, `FixedTables`, `LengthTable`).
- The comment on huft_build says that lengths that are all zero give 2; the code returns 0 with no table.
- Where size_t is wider than 32 bits, md5_process_block counts a length of 2^32 or more wrongly once it reaches 2^33 with
  the low word of the count (`Md5.CountExact`; 2^33 bytes at once in `Md5.CountWrong`). `Md5.Countable` is the exact
  condition for a call of md5_process_bytes; md5_stream never passes such a length.
- In make_bad_inode the last "too many bad blocks" cannot be reached: the table of good blocks is full before.
- In expr, toarith never fails (`expr.c:161-181`), so comparisons are always numeric and the string comparison and
  "non-numeric argument" are dead; the empty string counts as 0, against the comment at that place.

## Left out

- TreeBuilding.TreeBuilder.BuildTree: the frequencies must add up to at most 65533, which LIT_BUFSIZE guarantees for every block; beyond that the 16-bit sums wrap.
- HuftBuilding.HuftBuild: return code 3 (no memory) and huft_free are not modelled; entries of tables and of v[] that were never written are a fixed invalid value.
- Inflating.Inflate: nothing is claimed for input that the format does not decode, or where fewer than 16 bits follow a symbol; such a run may end in any way.
- Md5.Md5Ctx.ProcessBytes: where `Countable` fails the counter is wrong and nothing is claimed about the digest; lengths are below 2^64. The table of sines is the source's own and is not derived from the sine; words are little-endian, SWAP being the identity.
- Exprs.Evaluator.Eval: C int overflow is not modelled; the regular expression operator is an abstract function; each comparison and arithmetic function is a case of one method.
- Deflating.Deflater.LongestMatch: where the chain is cut off, a longer match may lie further back, by design; bytes behind the end of the input may decide which of several matches that reach it is taken; the window has MAX_MATCH guard cells past its end for the bytes it looks at there, and the assertion at gzip.c:1280 is not claimed.
- File opening, headers, names, options, signals, and retries of read and write: input and output are byte sequences. Refilling the input buffer is not modelled; the reader has all of the input.
- The branch of flush_block that stores the whole file needs a seekable output, which the program never has; set_file_type only sets a header field.
- The branch of fill_window for a 16-bit int, and the DEBUG, ASMV, UNALIGNED_OK, MSDOS and VMS variants.
- l_buf, d_buf, flag_buf, the code tables and the tables of huft_build are sequences that grow; that l_buf shares memory with the input buffer is not captured.
- opt_len, static_len and compressed_len are unbounded; the depth field of a heap node is kept mod 256, where it only breaks ties.
- In mkfs_minix, get_list_blocks, the version 2 inodes, the inode map, the super block, and the table sizes of setup_tables; reading a block is a given list of defective ones.
- The digest of MD5 is left as four words; the printing of digests and md5sum's file lists are left out.
- The other applets: they would only add easier members or tie into system calls.
