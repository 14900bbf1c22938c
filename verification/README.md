# BusyBox and ext4_utils, modelled and proved in Dafny

This project models algorithms of `tools/busybox-1.20` and `android/ext4_utils`:

* **the gzip compressor** (`gzip.c`): the sliding window and its hash chains, lazy matching, the token buffers,
  heap-built Huffman trees with limited lengths, canonical codes, run-length coded code lengths, the choice between
  stored, static and dynamic blocks, the 16-bit bit writer, and the file around it with its CRC-32 (`crc32.c`);
* **the LZO1X optimizer** (`lzo1x_optimize` in `lzop.c`), which rewrites a compressed block in place while decoding it,
  and the Adler-32 checksum of the same file;
* **sparse images**: the sorted queue of blocks (`backed_block.c`), the writer (`output_file.c`), the reader
  (`simg2img.c`) and the checksum (`sparse_crc32.c`);
* **SHA-1** over data in pieces (`sha1.c`), the **`expr`** evaluator (`expr.c`), and from `dpkg.c` the order of Debian
  versions and the interning of names.

Classes stand for the C globals and structures; their methods have the loops and assignments of the C functions and are
proved against specifications on values. What the results are measured by is written from the formats alone: `Rfc1951`
(sections 3.1.1 and 3.2.2 to 3.2.7 of RFC 1951), `Rfc1952` (sections 2.2, 2.3 and 8 of RFC 1952), `Lzo1x`,
`SparseFormat`, `Sha1s` (sections 3 to 7 of FIPS PUB 180-1), and `Expressions`. These definitions are in turn pinned down
by laws and by literal bytes: `Rfc1951Laws`, `GzipExamples`, `CrcCheck`, `LzoOpcodes`, `SparseLaws`, `Sha1Examples`,
`ExprLaws` and `DebianLaws` say what they mean without naming what they are made of, and `CompressorLaws` what the
compressor decides in numbers.

## Main results

1. **Whole-run round trip.** For every input, every way it may arrive in pieces, and every memory configuration, the
   file `Gzip.Zip` writes decodes by RFC 1952 to the input, checksum and size included (or, if a read fails, to the part
   that could be read). The tokens of the whole run expand to the input, too, with every length in 3..258 and every
   distance in 1..32506.
2. **Matches.** `longest_match` returns the best of the candidates it visits, although it never compares third bytes
   and checks for the end only every eighth byte. The chains lead to every earlier string and survive, with the rolling hash and a
   pending match, every slide of the window; what lies beyond the end of the text may be anything.
3. **Huffman trees.** Codes are complete, decodable, monotone and as cheap as any set of prefix-free words (through the
   Kraft inequality), unless the tree that grew from the frequencies is deeper than the limit. That never happens below
   2584 occurrences for 15 bits, or 55 for 7 bits. The overflow count is exactly twice the excess code space, the repair ends with a complete code.
4. **Sizes.** The predicted sizes are the numbers of bits sent, forced codes and tree descriptions included, and each
   block is sent in the encoding with the fewest bytes, a stored block counting 4 more than its data; of equal codings the
   static one is sent. Stored blocks always fit their 16-bit length field, which rests on the 4096-byte limit for matches of length 3.
5. **LZO1X.** Every block that decodes is rewritten to a block of the same length that decodes to the same bytes, which
   are also the bytes written out. What each form of instruction copies is stated byte by byte, for every output so far.
6. **Sparse images.** Pieces queued in any order come back from `simg2img` in their places, with zeros elsewhere and
   matching block count and checksum. The insertion with a hint gives the list of plain sorted insertion.
7. **SHA-1.** The digest of data in any pieces is that of FIPS PUB 180-1 for the whole message, although the schedule is
   kept in 16 words and the working variables change names instead of places. That definition gives "abc" its digest.
8. **`expr`.** An expression printed with only the brackets it needs is read back with its value, and what follows is
   left. All errors of operators and conversions included, the evaluator computes the meaning of the tree. What the
   program prints for each operator is stated on integers and texts, for every pair of arguments.
9. **`dpkg`.** The comparison of versions is a total preorder, decided by the first difference: by classes of characters,
   by the values of runs of digits, by epoch before version before revision. Any sequence of names is interned so
   that equal indices mean equal names, and no entry moves.

## What the code shows

* The comment in `build_tree` says that a forced code is 0 or 1 (gzip.c:1261). It is 2 exactly when symbol 1 is the only
  one used (`TreeBuilders.ForcedIsTwo`), as in the distance tree of any block whose distances are all 2
  (`ForcedCodes.ForcesTwo`). What the charges need is only that codes below 3 have no extra bits, which `TreeDesc.Valid`
  requires and all three trees satisfy.
* `match_start` is unsigned and may go below zero in a slide (gzip.c:562): a pending match at window index 32767 then
  wraps to 2^32 - 1. The later subtraction wraps back, so the distance is right; this is modelled with `Uint32`.
* `opt_len--` (gzip.c:1258) may pass through 2^32 - 1 before the charges are added; sums are modelled as integers.
* `send_all_trees` needs at least four code length codes. The loop that looks for the last one (gzip.c:1444) could in
  principle stop at 2; it never does, because some nonzero length is always sent as itself (`TreeHeaders.FourAtLeast`).
* The debug assertion of `longest_match` (gzip.c:631) holds until the input has ended (`Deflating.InsideUnlessEnded`). In a
  whole run it fails exactly if the refill that met the end of the input did not slide the window and a string is
  searched for beyond the bound (`WindowEnds.AssertionFailsIff`). Then the length leaves at least 32508 bytes after whole
  halves of the window (`WindowEnds.FailsOnlyForLengths`). It does fail for every text of at most 65534 bytes that first
  repeats three bytes, not too far away, beyond the bound (`WindowEnds.LateRepetitionFails`); `WindowEnds.AssertionFails`
  is such a run. The window of the model has 262 more bytes with arbitrary contents; no result depends on them.
* `write_data_file` refuses a piece that ends where the image ends (output_file.c:391), unlike `write_data_block`, so that
  the last block of an image comes back as zeros (`SparseImages.LastBlockIsLost`). All pieces are shown exactly if each
  one fits and those from files that reach the end are zeros (`SparseImages.ShowsAllIff`).
* The second loop of `process_skip_chunk` (simg2img.c:95-100) goes on in steps that depend on the last seek. It ends
  without passing zero exactly if they divide the length (`Simg2imgs.SkipLoopEndsIff`), as they do for block sizes that
  are powers of two (`Simg2imgs.PowerStep`); with blocks of 20 bytes they need not (`Simg2imgs.StepMissesTheEnd`).
* `SHA1Update` adds the upper bits of the length only when the lower word overflows (sha1.c:226-227). The count is right
  exactly if there is such a carry or the length is below 2^29 (`Sha1Contexts.CountIff`); the first 2^29 bytes in one
  piece are not counted at all (`Sha1Contexts.HalfGigabyteUncounted`).
* `expr substr` passes a 64-bit count on as an `int` (expr.c:373, xfuncs_printf.c:91). The part is right exactly under
  the condition of `Expressions.PartIff`; `expr substr abc 1 4294967296` prints an empty line
  (`Expressions.HugeCountIsEmpty`).
* A search in the name table ends exactly if the name is there or a slot is empty (`NameTables.SearchEndsIff`), so a full
  table must not be asked for a new name.

## Model

| member | source | states |
|---|---|---|
| Gzip.Zip | tools/busybox-1.20/archival/gzip.c:1983-2012 | the file written decodes, by RFC 1952 with header, checksum and size, to the input, however it is split into reads; after a failed read to what was read before |
| Gzip.MemberDecodes | tools/busybox-1.20/archival/gzip.c:1983-2012 | head, blocks that decode to a text, its checksum and its size make a file that decodes to the text |
| Sources.Source.Read | tools/busybox-1.20/archival/gzip.c:430-443 | a read appends a piece of the input and keeps the checksum register and the size of all that has been read |
| Crc32s.FeedIsRegister | tools/busybox-1.20/libbb/crc32.c:54-63 | a table lookup for each byte gives the register of the checksum as defined bit by bit |
| Crc32s.FillTable | tools/busybox-1.20/libbb/crc32.c:21-41 | the table holds what eight shifts make of each byte |
| CrcCheck.CheckValue | tools/busybox-1.20/libbb/crc32.c:21-41 | the checksum of "123456789" is 0xCBF43926 |
| Crc32s.BlockEndian0 | tools/busybox-1.20/libbb/crc32.c:54-63 | the register after a buffer |
| Gzip.LmInit | tools/busybox-1.20/archival/gzip.c:1847-1883 | the window holds the first bytes read, the chains are empty, the rolling hash is ready, and there is enough lookahead unless the input has ended |
| Deflating.Deflate | tools/busybox-1.20/archival/gzip.c:1725-1828 | after the last block the output decodes to the text and has the length returned; all tokens of the run are proper and expand to the text |
| Deflating.Step | tools/busybox-1.20/archival/gzip.c:1735-1813 | one round of lazy matching: which token is saved for which outcome of the search, where the position moves, and that the blocks and tokens so far still stand for the text |
| Deflating.InsideUnlessEnded | tools/busybox-1.20/archival/gzip.c:631 | before the end of the input the position is at most `WINDOW_SIZE - MIN_LOOKAHEAD` |
| WindowEnds.AssertionFailsIff | tools/busybox-1.20/archival/gzip.c:631 | in a whole run the assertion fails exactly if the refill that met the end did not slide the window and a later search lies beyond the bound |
| WindowEnds.FailsOnlyForLengths | tools/busybox-1.20/archival/gzip.c:541-589 | it fails only for lengths that leave 32508 to 32766 bytes after whole halves of the window |
| WindowEnds.LateRepetitionFails | tools/busybox-1.20/archival/gzip.c:1735-1822 | it fails for every text that fits the window and first repeats three bytes, not too far away, beyond the bound |
| WindowEnds.AssertionFails | tools/busybox-1.20/archival/gzip.c:631 | a whole run on a text of 65534 bytes, arriving in any pieces, in which it fails |
| Repetitions.StraightRound | tools/busybox-1.20/archival/gzip.c:1735-1822 | fresh text is passed byte by byte, searching wherever something near repeats, and the window does not slide before its end |
| Deflating.CourseRound | tools/busybox-1.20/archival/gzip.c:1735-1822 | every round keeps the account of all searches and of the end of the input |
| Deflating.Search | tools/busybox-1.20/archival/gzip.c:1744-1756 | when a search is begun, and that a string that repeats near is always searched for |
| Deflating.Refill | tools/busybox-1.20/archival/gzip.c:1816-1822 | reading goes on until there is enough lookahead or the input ends; how positions, hash chains and `match_start` move with the window |
| Deflating.RefillBetween | tools/busybox-1.20/archival/gzip.c:1816-1822 | reading and sliding between two positions keep the coded text and the pending match, and end with enough lookahead or the end of the input |
| Deflating.FindMatch | tools/busybox-1.20/archival/gzip.c:1744-1765 | the length is that of the best candidate, cut at the end of the text and dropped if short and too far; a longer one than before is a match in the text |
| Deflating.SkipMatch | tools/busybox-1.20/archival/gzip.c:1773-1789 | all strings of an adopted match are inserted, position and lookahead move to its end |
| Deflating.EmitMatch | tools/busybox-1.20/archival/gzip.c:1769-1793 | saving a pending match extends the text coded by exactly its length, across a flush as well |
| Deflating.LazyStays | tools/busybox-1.20/archival/gzip.c:561-565 | a pending match keeps its meaning when the window slides and `match_start` wraps |
| Progress.DecodingStep | tools/busybox-1.20/archival/gzip.c:1597-1679 | blocks compose: decoding arrives at the end of each block with the text coded so far |
| Progress.DecodingEnds | tools/busybox-1.20/archival/gzip.c:1671-1674 | after the last block decoding ends in its last byte with the whole text, whatever bits complete the byte and whatever follows |
| Progress.MatchPends | tools/busybox-1.20/archival/gzip.c:1753-1756 | a match in the window, cut off at the lookahead, is a match in the text |
| Progress.CopyBackRepeats | tools/busybox-1.20/archival/gzip.c:1769-1771 | copying back reproduces text that repeats, also when source and target overlap |
| Matchers.Matcher.LongestMatch | tools/busybox-1.20/archival/gzip.c:605-679 | the result is the greatest match length among the visited candidates, at `match_start`, or the previous length if none is longer |
| CompressorLaws.ChainVisited | tools/busybox-1.20/archival/gzip.c:675-676 | each position visited is the link of the one before, above the limit, until the links or the allowed number end |
| CompressorLaws.LengthKept | tools/busybox-1.20/archival/gzip.c:1754-1764 | the length is cut at the end of the text, and 3 bytes at more than 4096 do not count |
| LongestMatches.Extend | tools/busybox-1.20/archival/gzip.c:653-664 | the loop with one end check in eight comparisons finds the match length |
| LongestMatches.ThirdEqual | tools/busybox-1.20/archival/gzip.c:647-652 | equal hashes and equal first two bytes imply equal third bytes |
| LongestMatches.ChainKeeps | tools/busybox-1.20/archival/gzip.c:612-615 | every position visited lies before the string, within the greatest distance, and has its hash |
| Matchers.Matcher.InsertString | tools/busybox-1.20/archival/gzip.c:1712-1723 | the string is at the head of its chain, linked to the previous head; all chains keep equal hashes |
| Matchers.Matcher.FillWindow | tools/busybox-1.20/archival/gzip.c:541-589 | the window holds the end of the text after a slide of 0 or 32768 and a read; the chains stay valid, positions move with the window, the end of input is noticed |
| HashChains.HeadIsLate | tools/busybox-1.20/archival/gzip.c:1718-1723 | the head of a chain is at or after every earlier position with the same three bytes |
| HashChains.SlideKeeps | tools/busybox-1.20/archival/gzip.c:561-577 | the chains stay valid when the upper half moves down under them and older positions are forgotten |
| HashChains.InsertKeeps | tools/busybox-1.20/archival/gzip.c:1718-1723 | inserting a position keeps the chains although it overwrites the link of one 32768 before |
| Hashing.Roll | tools/busybox-1.20/archival/gzip.c:1682-1688 | the rolling hash equals the hash of the last three bytes from scratch |
| Hashing.ThirdByte | tools/busybox-1.20/archival/gzip.c:649-652 | strings with equal hashes and first two bytes have equal third bytes |
| BlockCoders.BlockCoder.FlushBlock | tools/busybox-1.20/archival/gzip.c:1597-1679 | the block decodes, whatever follows, to the data it stands for; it is sent in the encoding that the exact predictions make the shortest; each of its three trees is cheapest unless the one that grew is deeper than the limit; the last block ends on a byte and its length is returned |
| BlockCoders.BlockCoder.EmitBlock | tools/busybox-1.20/archival/gzip.c:1619-1668 | exactly the bits of the stored, static or dynamic encoding, whichever the predictions say, decodable, and `compressed_len` is the number of bits sent |
| BlockCoders.BestEncoding | tools/busybox-1.20/archival/gzip.c:1628-1667 | a block is stored exactly if there are data and their length and 4 are at most the bytes of the static and of the dynamic encoding; otherwise it is sent with static codes exactly if their bytes are at most the dynamic ones; so no encoding that is possible has fewer bytes |
| BlockCoders.TypeBitsAre | tools/busybox-1.20/archival/gzip.c:1651-1661 | the three bits in front of a block: last or not, and 00, 10 or 01, low bit first |
| CompressorLaws.Profit | tools/busybox-1.20/archival/gzip.c:1518-1534 | ending a block seems profitable after each 4096 tokens, if fewer than half are matches and 8 bits for each token and 5 and the extra bits for each distance come to less than half of the data |
| CompressorLaws.RunIsSent | tools/busybox-1.20/archival/gzip.c:1379-1418 | runs of up to 138 zeros, 6 more of the length before or 7 of another length: one by one if short, otherwise with one repeat code, which codes 3 or more |
| BlockCoders.PlanBlock | tools/busybox-1.20/archival/gzip.c:1604-1617 | both trees, the code length tree and the guards are in place, and both predictions equal the sizes of the encodings |
| BlockCoders.BlockCoder.CtTally | tools/busybox-1.20/archival/gzip.c:1490-1541 | the token is saved and counted; the block is to end when a buffer is full or ending it seems profitable |
| BlockCoders.StoredKind | tools/busybox-1.20/archival/gzip.c:1643-1655 | storing is chosen only for data of at most 65535 bytes |
| BlockSizes.TokenBound | tools/busybox-1.20/archival/gzip.c:1758-1764 | a token takes at most 7 bits for each byte and 2 more under the static codes, thanks to the limit for short far matches |
| BlockSizes.TreesCover | tools/busybox-1.20/archival/gzip.c:1605-1609 | the trees built for the counted tokens give every token and the end of block a code |
| BlockSizes.StaticSize | tools/busybox-1.20/archival/gzip.c:1109-1113 | what is charged to `static_len` is the size of the static encoding |
| TokenCosts.TokensCost | tools/busybox-1.20/archival/gzip.c:1105-1113 | charges by frequency equal the bits of the tokens, extra bits and end of block included |
| TokenBuffers.TokenBuffer.Save | tools/busybox-1.20/archival/gzip.c:1492-1517 | the buffers and flag bits represent the tokens so far and the new one |
| BlockData.CompressBlock | tools/busybox-1.20/archival/gzip.c:1546-1589 | reads the tokens back from the buffers and sends exactly their codes and extra bits |
| CodeTables.InitLengths | tools/busybox-1.20/archival/gzip.c:1906-1919 | the tables give every match length its code and base, 258 the code of its own |
| CodeTables.InitDistances | tools/busybox-1.20/archival/gzip.c:1921-1937 | the table of 512 entries gives every distance up to 32768 its code, in two resolutions |
| StaticTrees.InitStaticLit | tools/busybox-1.20/archival/gzip.c:1939-1965 | the static tree has the fixed code of RFC 1951 |
| StaticTrees.InitStaticDist | tools/busybox-1.20/archival/gzip.c:1967-1971 | the static distance tree has the fixed 5-bit code, although it has 30 of its 32 symbols |
| Blocks.StoredDecodes | tools/busybox-1.20/archival/gzip.c:1651-1655 | a stored block decodes to its data wherever it begins in a byte |
| Blocks.StaticDecodes | tools/busybox-1.20/archival/gzip.c:1657-1660 | a static block decodes to the expansion of its tokens |
| Blocks.DynamicDecodes | tools/busybox-1.20/archival/gzip.c:1661-1666 | a dynamic block, its trees included, decodes to the expansion of its tokens |
| TokenCodes.DataRoundTrip | tools/busybox-1.20/archival/gzip.c:1546-1589 | the bits of tokens and end of block decode to the expansion of the tokens |
| TokenCodes.ReadsToken | tools/busybox-1.20/archival/gzip.c:1560-1584 | the decoder reads back every literal, length and distance with its extra bits |
| TreeHeaders.ReadsHeader | tools/busybox-1.20/archival/gzip.c:1461-1483 | the decoder reads back both trees from the counts, the code length code and the runs |
| TreeHeaders.FourAtLeast | tools/busybox-1.20/archival/gzip.c:1440-1447 | at least four code length codes are always sent |
| HeaderSending.SendAllTrees | tools/busybox-1.20/archival/gzip.c:1461-1483 | sends exactly the description of the trees |
| CodeLengthTree.BuildBlTree | tools/busybox-1.20/archival/gzip.c:1426-1453 | the code length tree covers all symbols of both trees, the last rank is found, and `opt_len` grows by the size of the description |
| TreeTransmission.ScanTree | tools/busybox-1.20/archival/gzip.c:1315-1361 | counts exactly the run-length symbols of the tree |
| TreeTransmission.SendTree | tools/busybox-1.20/archival/gzip.c:1368-1419 | sends exactly the run-length symbols of the tree |
| CodeLengthCoding.AllRunsUndo | tools/busybox-1.20/archival/gzip.c:1379-1418 | run-length coding loses nothing, and every repeat count fits its field |
| CodeLengthReading.ReadRuns | tools/busybox-1.20/archival/gzip.c:1382-1405 | the decoder recovers the code lengths from the bits of their runs |
| CodeLengthReading.TallyCost | tools/busybox-1.20/archival/gzip.c:1430-1438 | what is charged for the counted run-length symbols is the number of bits they take |
| Huffman.BuildTree | tools/busybox-1.20/archival/gzip.c:1223-1306 | a complete code of limited length for all used symbols with its reversed codes; exact charges against the original frequencies; more frequent symbols not longer; the tree that grew by merging least nodes, and if it is within the limit, no prefix code is cheaper; otherwise there are many occurrences |
| TreeDepth.HeavyValues | tools/busybox-1.20/archival/gzip.c:1092-1116 | the Fibonacci numbers that the limits of 15 and 7 bits amount to |
| TreeDepth.DeepTreeIsHeavy | tools/busybox-1.20/archival/gzip.c:1092-1116 | code lengths overflow the limit only if the total frequency reaches a Fibonacci number |
| Optimality.MergingIsOptimal | tools/busybox-1.20/archival/gzip.c:1271-1295 | merging the two least frequent nodes each time minimizes the weighted path length over all lengths that satisfy the Kraft inequality |
| PrefixFreeWords.NoWordsAreCheaper | tools/busybox-1.20/archival/gzip.c:1201-1207 | no set of prefix-free bit words for the used symbols is cheaper than a cheapest code |
| PrefixFreeWords.KraftInequality | tools/busybox-1.20/archival/gzip.c:1157-1164 | prefix-free words satisfy the Kraft inequality |
| PrefixFreeWords.CanonicalIsPrefixFree | tools/busybox-1.20/archival/gzip.c:1165-1198 | no canonical code is the beginning of another |
| PrefixFreeWords.SameLengthInOrder | tools/busybox-1.20/archival/gzip.c:1185-1191 | codes of one length are in the order of their symbols |
| PrefixFreeWords.LastCodeIsAllOnes | tools/busybox-1.20/archival/gzip.c:1178-1182 | the last code of a complete code is all ones |
| PrefixCodes.SymbolRoundTrip | tools/busybox-1.20/archival/gzip.c:1165-1198 | wherever a code stands in a stream the decoder reads its symbol |
| Rfc1951Laws.LengthTable | tools/busybox-1.20/archival/gzip.c:779-782 | every length code begins where the values of the one before end, from 3 on, with one more extra bit for every fourth code; 258 has its own |
| Rfc1951Laws.DistanceTable | tools/busybox-1.20/archival/gzip.c:785-788 | every distance code begins where the values of the one before end, from 1 to 32768, with one more extra bit for every second code |
| Rfc1951Laws.CodeLengthOrder | tools/busybox-1.20/archival/gzip.c:795-796 | 16, 17, 18, 0, and then the lengths from 8 up and 7 down in turn |
| Rfc1951Laws.FixedCodes | tools/busybox-1.20/archival/gzip.c:1939-1965 | the four ranges of the fixed codes in numbers |
| Rfc1951Laws.HeaderCounts | tools/busybox-1.20/archival/gzip.c:1469-1482 | the counts of codes, less 257, 1 and 4, in 5, 5 and 4 bits, and both trees as one sequence |
| Rfc1951Laws.RepeatsLast | tools/busybox-1.20/archival/gzip.c:1395-1398 | code 16 and two bits repeat the length before 3 to 6 times |
| Rfc1951Laws.RepeatsZero | tools/busybox-1.20/archival/gzip.c:1399-1401 | code 17 and three bits stand for 3 to 10 zeros |
| Rfc1951Laws.RepeatsZeroLong | tools/busybox-1.20/archival/gzip.c:1402-1405 | code 18 and seven bits stand for 11 to 138 zeros |
| Rfc1951Laws.BlockTypes | tools/busybox-1.20/archival/gzip.c:1651-1666 | the bit for the last block and the two bits of the type choose how the rest is read |
| GzipExamples.FixedBlock | tools/busybox-1.20/archival/gzip.c:1657-1660 | nine literal bytes: a block with fixed codes, six literals and a match with extra bits |
| GzipExamples.StoredFileMeans | tools/busybox-1.20/archival/gzip.c:1983-2012 | for all data up to 65535 bytes, which bytes make the file that has them in one stored block |
| GzipExamples.FileOfDigits | tools/busybox-1.20/archival/gzip.c:1983-2012 | the 32 literal bytes of the file of "123456789", not compressed |
| Merging.CombineLeast | tools/busybox-1.20/archival/gzip.c:1274-1293 | one merge: the two least nodes are recorded below the heap, their father is queued, heap order and contents are kept |
| Heaps.NodeHeap.PqDownHeap | tools/busybox-1.20/archival/gzip.c:1034-1056 | heap order from `k` on, same contents, entries outside untouched |
| Heaps.TopIsLeast | tools/busybox-1.20/archival/gzip.c:1210-1221 | the entry at the top of the heap is least |
| TreeOrder.FatherBefore | tools/busybox-1.20/archival/gzip.c:1278-1297 | in the sorted list every father stands before its sons |
| LengthLimit.GenBitlen | tools/busybox-1.20/archival/gzip.c:1069-1154 | complete code of limited length, exact charges, tree depths if nothing overflows, otherwise lengths dealt in order of frequency |
| LengthLimit.RepairCounts | tools/busybox-1.20/archival/gzip.c:1121-1133 | the repair finds a shorter leaf each time, ends, keeps the number of codes and leaves no excess |
| LengthLimit.Reassign | tools/busybox-1.20/archival/gzip.c:1135-1153 | every leaf gets one of the counted lengths, longer ones for less frequent symbols, and `opt_len` follows |
| Merges.SpaceSum | tools/busybox-1.20/archival/gzip.c:1092-1098 | clamped depths exceed the code space by exactly the number of merges that are too deep, half of `overflow` |
| BitLengths.FirstPass | tools/busybox-1.20/archival/gzip.c:1084-1114 | clamped depths, their counts, the charges, and an overflow of twice the excess |
| TreeBuilders.ForcedIsTwo | tools/busybox-1.20/archival/gzip.c:1254-1261 | the forced code is at most 2, and 2 exactly when symbol 1 is the only one used, where the comment says 0 or 1 |
| ForcedCodes.ForcesTwo | tools/busybox-1.20/archival/gzip.c:1254-1261 | in the distance tree of a block whose distances are all 2, the first forced code is 2 |
| ForcedCodes.SuchABlock | tools/busybox-1.20/archival/gzip.c:1254-1261 | a byte and five alternating ones make such a block |
| TreeBuilders.TreeBuilder.ForceCodes | tools/busybox-1.20/archival/gzip.c:1248-1262 | at least two symbols are used; the charges of forced ones are discounted in advance |
| CodeAssignment.GenCodes | tools/busybox-1.20/archival/gzip.c:1165-1198 | every symbol has the reversal of its canonical code, so that it is sent first bit first |
| CodeAssignment.BiReverse | tools/busybox-1.20/archival/gzip.c:478-488 | the low bits of the result are the code's bits in reverse |
| BitWriters.BitWriter.SendBits | tools/busybox-1.20/archival/gzip.c:450-470 | appends the low bits of the value, least significant first, whether or not the 16-bit buffer overflows |
| BitWriters.BitWriter.Put16bit | tools/busybox-1.20/archival/gzip.c:397-406 | appends two bytes, low byte first, whether or not the buffer is nearly full |
| BitWriters.BitWriter.Windup | tools/busybox-1.20/archival/gzip.c:494-506 | completes the byte with zero bits |
| BitWriters.BitWriter.CopyBlock | tools/busybox-1.20/archival/gzip.c:513-533 | aligns, sends length and complement if requested, and the bytes |
| LzoOptimizers.Lzo1xOptimize | tools/busybox-1.20/archival/lzop.c:103-354 | a block that decodes is left with the same meaning; its bytes are written out; bytes after the end code are reported |
| LzoOpcodes.TwoBytes | tools/busybox-1.20/archival/lzop.c:174-182 | below 16 after literals of a match: two bytes from 1 to 1024 back |
| LzoOpcodes.ThreeBytes | tools/busybox-1.20/archival/lzop.c:158-167 | below 16 after a literal run: three bytes from 2049 to 3072 back |
| LzoOpcodes.From2049 | tools/busybox-1.20/archival/lzop.c:158-167 | the bytes 0, 0 after a run and the end code copy the three bytes at 2049 back |
| LzoOpcodes.ThreeToEight | tools/busybox-1.20/archival/lzop.c:222-231 | 64 to 255: three to eight bytes from 1 to 2048 back |
| LzoOpcodes.UpTo33 | tools/busybox-1.20/archival/lzop.c:254-264 | 33 to 63: three to 33 bytes from 1 to 16384 back |
| LzoOpcodes.From34 | tools/busybox-1.20/archival/lzop.c:254-264 | 32: a length continued by zeros and a last byte |
| LzoOpcodes.FarAway | tools/busybox-1.20/archival/lzop.c:265-281 | 17 to 31: three to nine bytes from 16385 back, 16384 more with bit 8 |
| LzoOpcodes.FarAndLong | tools/busybox-1.20/archival/lzop.c:265-281 | 16 and 24: the same with a continued length |
| LzoOpcodes.EndCode | tools/busybox-1.20/archival/lzop.c:276-279 | 17, 0, 0 ends the block and leaves the rest |
| LzoOpcodes.ShortRun | tools/busybox-1.20/archival/lzop.c:134-151 | 1 to 15: a run of 4 to 18 literals |
| LzoOpcodes.LongRun | tools/busybox-1.20/archival/lzop.c:134-151 | 0: a run with a continued length |
| LzoOpcodes.FirstLiterals | tools/busybox-1.20/archival/lzop.c:126-131 | a first byte above 17 is followed by that many literals less 17 |
| LzoOptimizers.Optimizer.Instruction | tools/busybox-1.20/archival/lzop.c:133-341 | one instruction keeps the block lined up with what it decodes to, or ends with the complete output |
| LzoOptimizers.Optimizer.NearMatch | tools/busybox-1.20/archival/lzop.c:174-220 | a match of two bytes becomes literals of the previous match, joins a literal run, or stays, exactly as its surroundings say |
| LzoOptimizers.Optimizer.MiddleMatch | tools/busybox-1.20/archival/lzop.c:223-253 | a match of three bytes between two literal runs joins them, every other one stays |
| LzoOptimizers.Optimizer.LongMatch | tools/busybox-1.20/archival/lzop.c:254-323 | a long match of three bytes becomes literals, joins a literal run, or stays; the end code is recognized |
| LzoOptimizers.Optimizer.MakeLiterals | tools/busybox-1.20/archival/lzop.c:287-295 | the copied bytes over the head of the match and the new count at the previous match mean the same |
| LzoOptimizers.Optimizer.JoinRuns | tools/busybox-1.20/archival/lzop.c:297-318 | the short literals, the match and the run, moved together in place, mean the same |
| LzoOptimizers.Optimizer.ExtendRun | tools/busybox-1.20/archival/lzop.c:239-253 | the run extended over the match and the next run means the same |
| LzoOptimizers.Optimizer.Copy3 | tools/busybox-1.20/archival/lzop.c:81-97 | the three bytes written are those the match would copy, also at distances 1 and 2 |
| LzoOptimizers.Room | tools/busybox-1.20/archival/lzop.c:133 | the bound tests of the loop hold at every instruction of a block that decodes |
| LzoLines.BlockDecodes | tools/busybox-1.20/archival/lzop.c:103-354 | a block passed over so far, rewritten or not, decodes as a whole to what is expected |
| LzoLines.RewriteToLiterals | tools/busybox-1.20/archival/lzop.c:183-192 | turning a match into literals of the previous match keeps what the block decodes to |
| LzoLines.RewriteJoined | tools/busybox-1.20/archival/lzop.c:195-217 | joining short literals, a match and a run keeps what the block decodes to |
| LzoLines.RewriteExtended | tools/busybox-1.20/archival/lzop.c:239-253 | joining two runs over a match keeps what the block decodes to |
| LzoStreams.FollowedIsMatch | tools/busybox-1.20/archival/lzop.c:188 | the number of literals in a head can be changed without changing its match |
| LzoTrails.JoinedValid | tools/busybox-1.20/archival/lzop.c:300-311 | the bytes of a joined run lead the decoder to the same output as before |
| Adler32.LzoAdler32 | tools/busybox-1.20/archival/lzop.c:465-492 | the checksum with deferred reduction is the one reduced at every byte, from any starting value |
| Adler32.NoOverflow | tools/busybox-1.20/archival/lzop.c:470-473 | within 5552 bytes neither sum overflows 32 bits, for any starting halves |
| Adler32.AdlerConcat | tools/busybox-1.20/archival/lzop.c:465-492 | the checksum of a concatenation is the chained checksum |
| Adler32.AdlerIs | tools/busybox-1.20/archival/lzop.c:465-492 | the halves in closed form: the sum of the bytes, and each byte as often as bytes follow from it on, modulo 65521 |
| BlockQueues.BlockQueue.QueueDb | android/ext4_utils/backed_block.c:34-67 | the linked list after an insertion that may start from the last one is the list of plain sorted insertion |
| BlockQueues.InsertAllSorts | android/ext4_utils/backed_block.c:34-67 | queueing sorts the pieces and loses none |
| BlockQueues.AnyOrder | android/ext4_utils/backed_block.c:34-67 | with different block numbers the list does not depend on the order of queueing |
| SparseFormat.HeaderRoundTrip | android/ext4_utils/sparse_format.h:17-32 | the header is read back from its bytes |
| SparseFormat.ReadsSame | android/ext4_utils/simg2img.c:161-198 | chunks mean the same whatever follows them and whatever header stands before them |
| SparseFormat.RawAppended | android/ext4_utils/output_file.c:219-247 | a raw chunk at the end of a file adds its data to the image |
| SparseFormat.SkipAppended | android/ext4_utils/output_file.c:163-173 | a skip chunk at the end of a file adds zeros to the image |
| SparseLaws.FileMeans | android/ext4_utils/sparse_format.h:17-48 | a file of literal bytes with a raw block and two skipped ones stands for the data and eight zeros |
| SparseLaws.HeadsShown | android/ext4_utils/ext4_utils.c:77-109 | in an image that shows them, the superblock is at byte 1024 and the descriptors are in the block behind it |
| SparseWriters.RoundUpIs | android/ext4_utils/output_file.c:219-221 | the masked sum is the least multiple of the block size that is not less |
| SparseWriters.SparseFile.EmitSkipChunk | android/ext4_utils/output_file.c:149-182 | whole blocks of zeros are added to the image and to the checksum; another length changes nothing |
| SparseWriters.SparseFile.WriteChunkRaw | android/ext4_utils/output_file.c:184-249 | data at or behind the output pointer and on the block grid extend the image by the gap, the data and zeros up to a block; everything else fails and changes nothing |
| SparseWriters.SparseFile.WriteDataFile | android/ext4_utils/output_file.c:386-416 | as for memory, but only data that end before the image does, and at least one byte |
| SparseWriters.SparseFile.PadOutputFile | android/ext4_utils/output_file.c:324-346 | the image is filled up to the length, unless that is not whole blocks ahead and inside |
| SparseWriters.SparseFile.CloseOutputFile | android/ext4_utils/output_file.c:251-269 | the header has the number of chunks and the checksum, and the chunks keep their meaning |
| SparseCrcs.CrcConcat | android/ext4_utils/sparse_crc32.c:101-110 | the checksum of a concatenation is the continued checksum, for any table |
| SparseCrcs.ChecksumIsCrc | android/ext4_utils/sparse_crc32.c:101-110 | with the table of CRC-32 it is the checksum of gzip files |
| SparseCrcs.SparseCrc32 | android/ext4_utils/sparse_crc32.c:101-110 | the loop computes the checksum from any start |
| Simg2imgs.Rebuilder.ProcessRawChunk | android/ext4_utils/simg2img.c:52-72 | blocks are copied in portions with the checksum, and it fails exactly if there are not enough |
| Simg2imgs.Rebuilder.ProcessSkipChunk | android/ext4_utils/simg2img.c:75-103 | blocks are passed over as zeros, with the checksum |
| Simg2imgs.SkipLoopEndsIff | android/ext4_utils/simg2img.c:95-100 | the second loop ends without passing zero exactly if its steps divide the length |
| Simg2imgs.PowerStep | android/ext4_utils/simg2img.c:87-100 | for block sizes that are powers of two every step is a block |
| Simg2imgs.StepMissesTheEnd | android/ext4_utils/simg2img.c:95-100 | 107374183 blocks of 20 bytes are passed over in steps of 12, which do not meet the end |
| Simg2imgs.Simg2img | android/ext4_utils/simg2img.c:105-225 | for every file whose loops over skipped blocks end: success exactly if it can be read and block count and checksum are right; the output is the image, at the size of the block count |
| Simg2imgs.PowerSteady | android/ext4_utils/simg2img.c:95-100 | in a file with a block size that is a power of two these loops end |
| SparseImages.ForEachDataBlock | android/ext4_utils/backed_block.c:104-122 | after the pieces of the queue the image shows just those that were accepted |
| SparseImages.WriteExt4Image | android/ext4_utils/ext4_utils.c:77-109 | the file stands for an image of the right length that shows superblock, descriptors and accepted pieces, and its header is right |
| SparseImages.BuildAndRebuild | android/ext4_utils/simg2img.c:105-225 | pieces queued in any order, written and rebuilt: success, and the image shows what was accepted and zeros elsewhere |
| SparseImages.ShowsUnique | android/ext4_utils/output_file.c:184-249 | only one image of a given length shows given pieces |
| SparseImages.ShowsAllIff | android/ext4_utils/output_file.c:386-396 | all pieces are shown exactly if each fits, and one from a file that reaches the end of the image is all zeros |
| SparseImages.LastBlockIsLost | android/ext4_utils/output_file.c:386-396 | four blocks, the last one from a file: it is rebuilt as zeros, whatever it held |
| Sha1Contexts.Hash | android/ext4_utils/sha1.c:196-269 | the digest of data in any pieces below 2^29 bytes is that of the whole message by FIPS PUB 180-1 |
| Sha1Contexts.Context.Update | android/ext4_utils/sha1.c:215-239 | the message grows by the data, for every length whose count is right |
| Sha1Contexts.Context.Final | android/ext4_utils/sha1.c:245-269 | the message is padded with its length and the digest returned |
| Sha1Contexts.CountIff | android/ext4_utils/sha1.c:225-227 | the count grows by the length in bits exactly if the length is below 2^29 or the lower word overflows |
| Sha1Contexts.HalfGigabyteUncounted | android/ext4_utils/sha1.c:225-227 | a first piece of 2^29 bytes leaves the count at zero |
| Sha1Contexts.Transform | android/ext4_utils/sha1.c:124-190 | a block is hashed as with the 80-word schedule, by steps that rename the working variables |
| Sha1Contexts.Step | android/ext4_utils/sha1.c:51-55 | a round macro with its place in the schedule of 16 words is a step of the method with 80 words |
| Sha1Contexts.SwapLittle | android/ext4_utils/sha1.c:39-44 | swapping a word read on a little-endian machine gives the word of the standard |
| Sha1Contexts.LaterSteps | android/ext4_utils/sha1.c:45-46 | four of the 16 words give the next word of the schedule |
| Sha1Examples.DigestOfAbc | android/ext4_utils/sha1.c:51-55 | the digest of "abc" in twenty literal bytes |
| Sha1Examples.ConstantsAreRoots | android/ext4_utils/sha1.c:51-55 | the constants are the integer parts of 2^30 times the square roots of 2, 3, 5 and 10 |
| Sha1Examples.PaddingEndsBlock | android/ext4_utils/sha1.c:245-269 | a one bit, fewer than 64 zero bytes and the length in bits, most significant byte first, end a block |
| ExprParsing.ReadsBack | tools/busybox-1.20/coreutils/expr.c:296-516 | evaluating a printed expression at a level gives its value, or its error, and leaves what follows, if that does not begin with an operator of the level or a higher one |
| ExprParsing.ReadsFirst | tools/busybox-1.20/coreutils/expr.c:385-516 | a printed expression is the first operand of its level, to which what follows is joined from the left |
| ExprParsing.ReadsBracketed | tools/busybox-1.20/coreutils/expr.c:303-310 | brackets make an operand of any level |
| ExprEvaluators.Evaluator.EvalLevel | tools/busybox-1.20/coreutils/expr.c:385-516 | the loops of a level return the value of the grammar and move to what is left |
| ExprEvaluators.Evaluator.Eval6 | tools/busybox-1.20/coreutils/expr.c:320-381 | keywords take their operands in order |
| ExprEvaluators.Evaluator.Eval7 | tools/busybox-1.20/coreutils/expr.c:296-316 | bare arguments and brackets, with the syntax errors |
| ExprEvaluators.CmpCommon | tools/busybox-1.20/coreutils/expr.c:196-222 | comparison by the codes of the operators: as numbers if both are, otherwise as texts |
| ExprEvaluators.ArithmeticCommon | tools/busybox-1.20/coreutils/expr.c:226-246 | arithmetic by the codes of the operators, with the errors |
| ExprEvaluators.ProgramPrints | tools/busybox-1.20/coreutils/expr.c:519-537 | given a printed expression, the program prints its value and nothing is left over |
| ExprEvaluators.ExprMain | tools/busybox-1.20/coreutils/expr.c:519-537 | the program evaluates all its arguments or fails |
| ExprLaws.NumberRead | tools/busybox-1.20/coreutils/expr.c:156-187 | every 64-bit number is read back from its text |
| ExprLaws.SumPrinted | tools/busybox-1.20/coreutils/expr.c:226-246 | the sum is printed, or what 64 bits keep of it |
| ExprLaws.DifferencePrinted | tools/busybox-1.20/coreutils/expr.c:226-246 | the number is printed that added to the second operand gives the first one, or what 64 bits keep of it |
| ExprLaws.ProductPrinted | tools/busybox-1.20/coreutils/expr.c:226-246 | the product is printed, or what 64 bits keep of it |
| ExprLaws.QuotientPrinted | tools/busybox-1.20/coreutils/expr.c:240-244 | quotient and remainder, the remainder nearer to zero than the divisor and on the side of the dividend |
| ExprLaws.DivisionFails | tools/busybox-1.20/coreutils/expr.c:240-244 | division by zero is an error, and the one quotient that does not fit traps |
| ExprLaws.NumbersCompared | tools/busybox-1.20/coreutils/expr.c:196-222 | each comparison of numbers prints 1 exactly if they are in that order |
| ExprLaws.TextsCompared | tools/busybox-1.20/coreutils/expr.c:196-222 | each comparison of texts prints 1 exactly if they are in that order at their first difference |
| ExprLaws.EitherPrinted | tools/busybox-1.20/coreutils/expr.c:501-516 | the first operand unless it is empty or zero, or else the second one |
| ExprLaws.BothPrinted | tools/busybox-1.20/coreutils/expr.c:481-498 | the first operand unless one of them is empty or zero, or else zero |
| ExprLaws.PositionPrinted | tools/busybox-1.20/coreutils/expr.c:352-361 | the first position whose character is in the set, or 0 |
| ExprLaws.PartPrinted | tools/busybox-1.20/coreutils/expr.c:362-377 | the part from a position with as many characters as asked for, or up to the end, or nothing |
| ExprLaws.Grouping | tools/busybox-1.20/coreutils/expr.c:385-516 | of two operators that of the higher level is applied first, of equal ones the first one |
| ExprLaws.BracketsFirst | tools/busybox-1.20/coreutils/expr.c:303-310 | an operation in brackets is applied first |
| ExprLaws.SyntaxErrors | tools/busybox-1.20/coreutils/expr.c:296-316 | no arguments, a bracket without its partner, an argument left over |
| Expressions.PartIff | tools/busybox-1.20/coreutils/expr.c:364-376 | `substr` gives as many characters as asked for, or up to the end, exactly unless the count is beyond an `int` and what is kept of it is less than what remains |
| Expressions.HugeCountIsEmpty | tools/busybox-1.20/coreutils/expr.c:364-376 | a count of 2^32 gives the empty string |
| DebianVersions.VersionCompare | tools/busybox-1.20/archival/dpkg.c:271-322 | the sign is that of the lexicographic order of epoch, upstream version and revision |
| DebianVersions.VersionComparePart | tools/busybox-1.20/archival/dpkg.c:228-265 | walking both strings compares their keys of character orders and numbers |
| DebianLaws.FirstDifference | tools/busybox-1.20/archival/dpkg.c:217-224 | behind a common beginning, a tilde comes before digits, these before letters, letters before other characters, and within a class the codes decide |
| DebianLaws.EndDifference | tools/busybox-1.20/archival/dpkg.c:217-224 | a tilde comes before the end, the end before letters and other characters |
| DebianLaws.RunsByValue | tools/busybox-1.20/archival/dpkg.c:245-262 | runs of digits are compared by their values, and equal ones do not matter |
| DebianLaws.LeadingZeros | tools/busybox-1.20/archival/dpkg.c:245-248 | leading zeros do not matter |
| DebianLaws.EpochsFirst | tools/busybox-1.20/archival/dpkg.c:281-298 | the greater epoch wins, equal ones do not matter, and none is epoch 0 |
| DebianLaws.RevisionIs | tools/busybox-1.20/archival/dpkg.c:300-312 | the last hyphen separates the revision |
| DebianLaws.UpstreamFirst | tools/busybox-1.20/archival/dpkg.c:313-317 | the upstream versions decide before the revisions |
| DebianLaws.CandidateFirst | tools/busybox-1.20/archival/dpkg.c:217-224 | "1.0~rc1-1" comes before "1.0-1" |
| DebianVersions.VersionsTransitive | tools/busybox-1.20/archival/dpkg.c:271-322 | the order of versions is transitive, strictly if one step is strict |
| DebianVersions.VersionsSwap | tools/busybox-1.20/archival/dpkg.c:271-322 | swapped versions compare with opposite signs |
| NameTables.InternAll | tools/busybox-1.20/archival/dpkg.c:177-194 | over any sequence of names, as long as they are not more than slots: equal indices exactly for equal names, and no entry ever moves |
| NameTables.NameTable.SearchName | tools/busybox-1.20/archival/dpkg.c:177-194 | the slot of the name, which is filled if the name is new; nothing else changes |
| NameTables.SearchEndsIff | tools/busybox-1.20/archival/dpkg.c:182-191 | the probe sequence arrives at the name or an empty slot exactly if there is one |
| NameTables.EverySlot | tools/busybox-1.20/archival/dpkg.c:182-191 | with a prime number of slots the probe sequence visits every one |
| NameTables.NoIntOverflow | tools/busybox-1.20/archival/dpkg.c:157-175 | the sums and shifts of the hash of an ASCII name fit an `int` |

## Left out

- File descriptors, option parsing and exits: a read is a method that returns any nonempty piece of what is left, 0 at the end or -1; writing appends to a sequence and does not fail.
- `zip` writes the last two bytes of its header after `lm_init`; here the header of ten bytes is written as a whole before.
- `DEBUG` code (its assertion on sizes is part of `EmitBlock`) and the branch of `flush_block` behind `seekable()`, which is 0 here.
- The branch of `fill_window` for 16-bit machines (gzip.c:550-554): `more` cannot be -1 when it has 32 bits.
- 16-bit frequencies, codes and window positions are integers or `Pos` with proved bounds; 32-bit sums of sizes (`opt_len`, `compressed_len`) are unbounded.
- `depth` holds bytes in the source; it only breaks ties, and the heap keeps its values modulo 256.
- Code tables that never change after `ct_init` are kept as values, and `compress_block` gets its trees as values.
- Huffman.BuildTree: when the tree that grew is deeper than the limit, the code is not claimed to be the cheapest of limited length; it need not be.
- LzoOptimizers.Lzo1xOptimize: only blocks that decode, up to an end code, are covered. On these the bound tests of the loops always hold, so the end by `LZO_E_EOF_NOT_FOUND` does not occur; without an end code the source reads on beyond the block (`ip[0]` at lzop.c:184, `*ip++` at lzop.c:340) before it tests again.
- The LZO compressors and the decompressor, and the lzop container: not part of this model.
- Simg2imgs.Simg2img: files with a skipped chunk whose loop does not end without passing zero; with the wrap at 64 bits it could go on for long.
- Sparse images: the bytes of a piece from a file are given with it, images that are not sparse are not modelled, the block size is 1024, 2048 or 4096 and divides the length as `write_ext4_image` needs it, and the 256 constants of the checksum table are any words.
- SparseImages.BuildAndRebuild: pieces must take different blocks, after the descriptors, as the comment in `write_chunk_raw` assumes.
- SHA-1: the branch for big-endian machines; `SHA1Update` with a length above 2^32 - 64, where `j + len` wraps.
- `expr`: what regular expressions match is a parameter; the functions `eval` to `eval5` are one method with the level as its argument; signed overflow of sums, differences and products keeps 64 bits, and a division that does not fit ends the program.
- DebianVersions.VersionCompare: versions are compared as strings, not looked up in the name table by index.
- The allocator, extents, inodes and directories of ext4_utils, and everything else in the repository.
