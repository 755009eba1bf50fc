# Compressors, a red-black tree and a primality test, verified

This project models four programs of the repository in Dafny and proves what they are for.

* **bzip2** (`Smjy/externals/bzip2`): the whole codec. Input goes through the run-length stage, the
  Burrows-Wheeler sort, move-to-front with zero runs, length-limited Huffman codes and the bit
  stream, and comes back through the decoder. Both sides work over any number of calls, each with
  as much input and as much room for output as the caller likes. Both sorters are modelled on
  their arrays: `fallbackSort` with its bucket bits and prefix doubling, and `mainSort` with the
  two-byte radix sort, the multikey quicksort and shell sort below it, and the induced sorting of
  step 2. So are both storage layouts of the decoder. The main results are that a whole stream, cut
  into pieces in any way, decompresses to what was compressed; that the bytes compressed are the
  stream of the input, with the cheapest codes for it; and that on any bytes whatever the decoder
  does what a functional description of the format says they mean.
* **zlib** (`Smjy/externals/zlib`): raw deflate streams. `deflate_slow` and `deflate_fast` with
  their sliding window and hash chains, the flushes of `deflate`, the construction of trees, the
  three forms of a block, `inflate_table`, the slow states of `inflate` and `inflate_fast` with the
  circular window, and the two checksums with their combination. The main results are the round trip
  of a stream, also from any full flush on; that the tokens are those of lazy or greedy evaluation
  with longest matches, the codes cheapest and each block in its shortest form; and that the two
  constants for the size of the decoder's tables suffice.
* **the red-black tree** (`AlgorithmExercise/c/struct/rbtree.c`): `__rb_insert` and
  `____rb_erase_color` on nodes with parent pointers restore the properties named at the head of
  the file and keep the order, and after every single store of a child pointer whoever follows
  child pointers meets only nodes of the tree and never runs in a circle.
* **the Miller-Rabin test** (`AlgorithmExercise/c/math/13.cpp`): powers over any associative
  operation, exactly which numbers pass, and that no prime is ever rejected.

Code that changes arrays and objects step by step is written as methods over arrays and classes,
each proved against a specification; the theorems about the specifications are lemmas. Every
module names at its head the part of the source it belongs to.

How the modules build on each other:

* bzip2, encoder: `RunLength`, `RunEncoder`; `Rotations`, `LastFirst`, `PrefixOrder`, `SegmentSort`,
  `ClassSort`, `RadixStart`, `FallbackRounds`, `FallbackRebuild`; `RotationOrder`, `TwoByteRadix`,
  `MainCompare`, `ShellSort`, `MultikeySort`, `InducedOrder`, `InducedScan`, `InducedSort`,
  `InducedRight`, `InducedResult`, `RunningOrder`, `MainSort`; `MtfEncoder`, `CodeHeap`,
  `MergeTrees`, `CodeLengths`, `CodingTables`, `BlockSender`, `CombinedChecksum`, `StreamCompressor`.
* bzip2, format: `BlockHeader`, `Canonical`, `BlockFormat` and `StreamFormat` say what is sent;
  `BitFields`, `HeaderMeaning`, `SymbolMeaning`, `BlockMeaning` and `StreamMeaning` say what any
  bits mean, and that what was sent means what was sent.
* bzip2, decoder: `BitStream`, `HeaderReader`, `HuffmanTables`, `SymbolStream`, `BlockCodes`,
  `MoveToFront`, `MtfDecoder`, `InverseBwt`, `SmallDecoder`, `Randomise`, `RunDecoder`,
  `BlockReceiver`, `BlockDecoder`; both sides meet in `StreamCodec`.
* zlib, encoder: `Lz77`, `HashChains`, `LongestMatch`, `DeflateState`, `DeflateWindow`,
  `DeflateTally`, `MatchRules`, `Deflating`; `TreeHeap`, `TreeMerging`, `TreeShape`, `TreeOptimum`,
  `TreeBuilding`, `CodeTree`, `LengthRepair`, `GenBitlen`, `TreeLengths`, `BlockLength`,
  `LengthRuns`, `TreeSender`, `LengthCodes`, `DeflateSymbols`, `DeflateBody`, `StoredBlocks`,
  `BlockForms`, `BlockWriting`, `DeflateCalls`.
* zlib, decoder: `DeflateCodes`, `DeflateOrder`, `DecodingTable`, `TableSteps`, `SubTables`,
  `TableSpace`, `InflateTable`, `TableLookup`, `SymbolReading`, `InflateItems`, `FastItems`,
  `InflateWindow`, `InflateCopy`, `InflateBlock`, `TreeReceiver`, `TreeRoundTrip`, `FixedCodes`,
  `InflateStream`; both meet in `RawDeflate`, `RawRoundTrip` and `RestartPoints`.
* red-black tree: `RbGraph`, `RbTrees`, `RbRoots`, `RbInsert`, `RbErase`, `RbWalk`.
* arithmetic: `Semigroup`, `Primes`, `MillerRabin`, `Adler32`, `Crc32`, `Crc32Combine`.

Where the code departs from what goes with it:

* The decoder of bzip2 takes any count of selectors that fits 15 bits, but its array has room for
  18002. `BlockHeader.SelectorsInBounds` says exactly for which counts the loop stays in the array.
  In `StreamMeaning` bits that would take the loop out of it are `Wild`.
* `AlgorithmExercise/c/math/13.cpp:43` lacks a comma in the template parameters of
  `power_semigroup`. The model takes them as two parameters.

## Model

| member | source | states |
|---|---|---|
| StreamCodec.RoundTrip | Smjy/externals/bzip2/bzlib.c:407-858 | Whatever calls feed the input, however they flush, whatever the block size, the work factor, the room that each call of the compressor and of the decompressor offers, the pieces the compressed bytes come in and the storage layout: decompression succeeds and gives back the input. |
| StreamCodec.Compress | Smjy/externals/bzip2/bzlib.c:334-464 | Over any calls with any room for output, what is handed out in all is the stream of exactly the input for the block size asked for: it ends with the byte in which the combined checksum does, filled up with zeros; every block is full but where a flush or the end came; its runs are the longest there are, its map has just the bytes that occur, and its selectors and tables are what the passes over the symbols settle on. |
| StreamCompressor.Compressor.BzCompress | Smjy/externals/bzip2/bzlib.c:407-464 | Each call hands out the next bytes, no more than there is room for; the codes say exactly whether the action is done or the call stalled for want of room, a call that breaks the order of actions changes nothing, and a finished stream is handed out whole. |
| StreamCompressor.Compressor.HandleCompress | Smjy/externals/bzip2/bzlib.c:361-403 | It ends settled, with the input gone or the action done and all output handed out, or with all room full and less left to do; progress is reported just when a byte went in or out. |
| CombinedChecksum.CombinedBit | Smjy/externals/bzip2/compress.c:604-608 | A bit of the combined checksum is set exactly if an odd number of blocks contribute to it, each its checksum turned by its distance from the last block. |
| RunEncoder.EState.AddCharToBlock | Smjy/externals/bzip2/bzlib.c:260-282 | The text of the block with the pending run is the text before and the byte, and the checksum and the used bytes stay those of the block. |
| StreamCodec.Decompress | Smjy/externals/bzip2/decompress.c:106-641 | On any bytes, in any pieces and with any output buffers: the end of the stream is reached if and only if the bytes mean a stream, checksums included, and then exactly its text has been given out; bytes that represent a text mean it. Excepted are only bytes that take the loop over the selectors out of its array. |
| StreamMeaning.RepresentedIsMeant | Smjy/externals/bzip2/decompress.c:197-606 | A stream of the format that stands for a text means this text, whatever tables, selectors and lengths its blocks chose. |
| StreamMeaning.OneText | Smjy/externals/bzip2/decompress.c:197-606 | No bytes represent two texts. |
| BlockDecoder.ReceiveBlock | Smjy/externals/bzip2/decompress.c:241-578 | On any bits: it succeeds just when they mean a block, has then taken just the bits of the block, and leaves an output stage that stands for its bytes, also those of a randomised block. |
| InverseBwt.UnsortedIsBlock | Smjy/externals/bzip2/decompress.c:559-567 | For any listing of a block's rotations in non-decreasing order, ties in any order, following the successor vector from the row of the unrotated block spells the block. |
| InverseBwt.FastUnsorter.GetFast | Smjy/externals/bzip2/bzlib_private.h:444-451 | The n-th byte taken from the packed words is the n-th byte of the unsorted block; the range check never fires. |
| InverseBwt.PackedFields | Smjy/externals/bzip2/decompress.c:559-567 | Or-ing an 8-bit and a shifted 24-bit field is the arithmetic by which the packed words are modelled, and both fields come back. |
| LastFirst.SuccessorRotates | Smjy/externals/bzip2/decompress.c:559-563 | The vector that is built sends each row to the row of the same rotation turned by one, and the last byte there is the first byte here. |
| SmallDecoder.SmallUnsorter.ReverseCycle | Smjy/externals/bzip2/decompress.c:537-546 | The pointer reversal turns the vector around on exactly the cycle through the origin, and stops. |
| SmallDecoder.SmallUnsorter.GetSmall | Smjy/externals/bzip2/bzlib_private.h:475-479 | The low-memory layout, which finds bytes by binary search and follows 20-bit cells, hands out the same bytes as the other one. |
| FallbackRebuild.FallbackSort | Smjy/externals/bzip2/blocksort.c:212-329 | The pointers list all rotations in order, for every block, and the block whose memory served as class table is put back. |
| MainSort.MainSort | Smjy/externals/bzip2/blocksort.c:751-1011 | If the budget lasts, the pointers list all rotations in order; the block is unchanged. |
| InducedResult.Induce | Smjy/externals/bzip2/blocksort.c:909-946 | With the other small buckets of a big one sorted, the two scans put every small bucket that follows an unfinished byte by this one in order, its own diagonal bucket included, and touch nothing else; that they meet as assertion 1007 says is proved on the way. |
| MultikeySort.QSort3 | Smjy/externals/bzip2/blocksort.c:621-717 | The rows of a segment are rearranged among themselves and, if the budget lasts, come out in rotation order; the explicit stack never overflows. |
| ShellSort.MainSimpleSort | Smjy/externals/bzip2/blocksort.c:485-555 | The same for the shell sort, from any shared prefix. |
| MainCompare.GtU | Smjy/externals/bzip2/blocksort.c:347-469 | Comparing bytes and then bytes with cached ranks decides the rotation order, whatever the ranks cached so far. |
| BlockSender.BlockSort | Smjy/externals/bzip2/blocksort.c:1031-1089 | Whichever sorter runs, and when one gives up and the other takes over, the rotations are sorted and the origin is found. |
| MtfEncoder.GenerateMtfValues | Smjy/externals/bzip2/compress.c:120-231 | Decoding the symbols written gives the last column in the block's own numbering, though they overwrite the pointers they are computed from. |
| ZeroRuns.RunDigitsRead | Smjy/externals/bzip2/decompress.c:379-399 | The bijective base-2 digits of a run add exactly its length when read, and the decoder's limit never rejects one. |
| MoveToFront.TwoLevelList.Take | Smjy/externals/bzip2/decompress.c:423-475 | On sixteen sliding runs in one array, taking the element at a position and moving it to the front does exactly that to the one list they stand for, in place also when the array has to be rebuilt. |
| MtfDecoder.DecodeSymbols | Smjy/externals/bzip2/decompress.c:371-486 | The decoding loop succeeds if and only if the symbols mean a block that fits, and then stores that block's bytes and counts them. |
| CodeLengths.MakeCodeLengths | Smjy/externals/bzip2/huffman.c:63-148 | For any frequencies that a block can have: lengths in range whose Kraft sum is exactly one, and no prefix code is cheaper for these frequencies; only where a cheapest code was too long is the same true of them halved, as often as that was so. |
| MergeTrees.LeavesAreCheapest | Smjy/externals/bzip2/huffman.c:78-113 | Merging two lightest nodes again and again puts the leaves at depths that are the lengths of a cheapest prefix code, among all codes of any lengths. |
| CodingTables.ChooseTables | Smjy/externals/bzip2/compress.c:271-451 | The tables begin as shares of the alphabet, each the shortest to hold its part of the symbols that remain; in each of four passes every group selects the first table that is cheapest for it, and every table becomes a cheapest code for the groups that have selected it. |
| Canonical.PrefixFree | Smjy/externals/bzip2/huffman.c:152-166 | No code word is a prefix of another one, for any lengths with a Kraft sum of at most one. |
| HuffmanTables.CreateDecodeTables | Smjy/externals/bzip2/huffman.c:170-200 | limit, base and perm are right for the canonical code: they are what reading symbols relies on. |
| BlockCodes.SendCodes | Smjy/externals/bzip2/compress.c:544-594 | The symbols are written in groups of fifty, each with the table its selector names. |
| BlockCodes.ReadSymbols | Smjy/externals/bzip2/decompress.c:74-102 | From any tables, selectors and bits, wherever the input is cut, also inside a code word: the symbols that the bits mean, with nothing behind them taken, or a refusal just when they mean none. |
| SymbolStream.SymbolReader.GetSymbol | Smjy/externals/bzip2/decompress.c:74-102 | The shortest beginning of the bits that is a code word of the selected table decides the symbol, for over-subscribed and incomplete tables too; the saved state loses no bit when input runs out. |
| BlockCodes.SymbolsGiven | Smjy/externals/bzip2/decompress.c:74-102 | What was sent as symbols means them. |
| HeaderReader.ReadSelectors | Smjy/externals/bzip2/decompress.c:291-301 | On any bits at all: the positions taken, whether it ended in a position that is too large or in the end of the input, and the bits left; all its stores are in the array if and only if there is room for the positions taken. |
| HeaderReader.ReadAllLengths | Smjy/externals/bzip2/decompress.c:316-329 | On any bits: the lengths that the steps walk to, all within 1 to 20, or a refusal as soon as one step leaves that range. |
| HeaderReader.ReadMap | Smjy/externals/bzip2/decompress.c:266-283 | On any bits: the bytes that the two levels of the map mark as used. |
| BlockHeader.SelectorsBack | Smjy/externals/bzip2/decompress.c:291-301 | What an encoder sends is taken back whole. |
| BlockHeader.SelectorsInBounds | Smjy/externals/bzip2/decompress.c:289-301 | The loop stays in the array of the decoder for all input if and only if the count is at most 18002; for every greater count there is an input for which it does not. |
| RunDecoder.OutputStage.Drain | Smjy/externals/bzip2/bzlib.c:536-804 | With buffers of any size, all output routines give out exactly the text of the block and its checksum, and find a block corrupt if and only if it stops where a count should be. |
| Randomise.UpdateMask | Smjy/externals/bzip2/bzlib_private.h:137-149 | The counter and the place in the table pick out just the last byte but one of each group of bytes whose length the table gives. |
| BitStream.BitReader.GetBits | Smjy/externals/bzip2/decompress.c:43-65 | Either the next bits in order, or nothing is lost and more input is needed. |
| RawRoundTrip.DeflateInflate | Smjy/externals/zlib/deflate.c:763-1073 | The bytes are those of the blocks that the compressor cut, each in the shortest form with the best trees for its tokens, and these are the tokens that the rules of the level give for the whole input, whichever matcher ran, over any calls and flushes; read back in any pieces into any buffers with any window that is large enough they give the text back, all of it just when there is room for it, and otherwise as much as there is room for. |
| DeflateCalls.DeflateAll | Smjy/externals/zlib/deflate.c:763-1073 | Whatever calls bring the input, whatever flushes they ask for and however early they end for want of room, a finishing one included: the finished compressor's blocks stand for the whole input, their tokens are those of one run of the rules of `MatchRules` over it, in each round of which the window reaches back as far as a match may, or to the last full flush, and ahead as far, or to a flush; a block that is not full ends at a flush; and every completed full flush left a point over which no match reaches. |
| DeflateCalls.Compressor.Deflate | Smjy/externals/zlib/deflate.c:763-1073 | No call loses input; the codes are the documented ones, a stream once finishing takes no more input, and a flush with room for output leaves nothing behind and puts its mark behind the last block; behind a full flush the blocks stand by themselves, with no match that reaches over it. |
| RestartPoints.DeflateFlushed | Smjy/externals/zlib/deflate.c:1031-1038 | Behind every full flush that was completed a stream begins, at a whole byte, that stands for the input of the later calls. |
| RestartPoints.StreamBehind | Smjy/externals/zlib/zlib.h:313-317 | The same for any stream and any of its points over which no match reaches. |
| RestartPoints.InflateFrom | Smjy/externals/zlib/zlib.h:313-317 | `inflate`, begun anew with an empty window at such a byte, gives the text from there on. |
| Deflating.Deflater.DeflateSlow | Smjy/externals/zlib/deflate.c:1926-2049 | Between calls the tokens are those of lazy evaluation: each round has every string filed so far in its table and, where it searches, finds a longest match in reach; a match is sent just when the next position has no longer one, and otherwise the byte; they stand for the input up to the current position but for the deferred byte, and no input is lost over any calls and flushes. |
| Deflating.Deflater.DeflateFast | Smjy/externals/zlib/deflate.c:1824-1918 | The same for greedy evaluation, where a match is sent at once, including the jump over long matches whose strings are not filed. |
| Deflating.Deflater.SlowStep | Smjy/externals/zlib/deflate.c:1944-2030 | One round of `deflate_slow`: the string is filed, what is found is what `SlowFinds` says, and exactly the token that lazy evaluation asks for is added, in a new block when the buffer was full. |
| Deflating.Deflater.FastStep | Smjy/externals/zlib/deflate.c:1841-1905 | One round of `deflate_fast`, with the strings it files and those it does not. |
| HashChains.Slide | Smjy/externals/zlib/deflate.c:201-225 | After the window has slid the chains are right again and exact: every chain lists just the filed strings with its hash that are still in reach, the latest first, and ends. |
| DeflateWindow.Matcher.FillWindow | Smjy/externals/zlib/deflate.c:1482-1599 | The window holds the text behind and ahead of the current position, which keeps its place in the text, as do match and block start; input is only moved, the window only when enough of it is left, and just the strings that stay in it stay filed. |
| LongestMatch.Longest | Smjy/externals/zlib/deflate.c:1236-1377 | The match found is a longest one that begins at any position the search visits, or as long as is asked for, and of those the nearest: the positions are those with the same hash, as many as the chain length allows, a quarter of them when the previous match is good; it equals the text at the distance found, also in the byte that is never compared. |
| HashChains.ThirdByte | Smjy/externals/zlib/deflate.c:1338-1341 | Strings with the same hash and the same first two bytes have the same third byte, for hashes of at least 8 bits. |
| TreeBuilding.BuildTree | Smjy/externals/zlib/trees.c:615-697 | For any frequencies the lengths of the symbols that occur, or of two at least, form a complete code within the limit; no prefix code is cheaper, unless a cheapest one is too long, and then too more frequent symbols never have longer codes; the codes are canonical, and opt_len and static_len grow by exactly what the symbols take with these lengths and with those of the static tree. |
| TreeOptimum.LengthsAreLeast | Smjy/externals/zlib/trees.c:660-688 | The depths in the tree that the heap has merged are lengths of a cheapest code, and cut off at the limit they still do not grow with the frequency. |
| GenBitlen.GenBitlen | Smjy/externals/zlib/trees.c:486-562 | From any tree with few enough leaves: lengths in range, a Kraft sum of exactly one, and opt_len and static_len raised by exactly frequency times length plus extra bits, also after lengths were reassigned. |
| LengthRepair.Repair | Smjy/externals/zlib/trees.c:531-543 | The loop against overflow keeps the number of leaves, brings the Kraft sum to exactly one, and its search for a shorter level never runs below one. |
| TreeLengths.CodeIsComplete | Smjy/externals/zlib/trees.c:486-605 | Lengths that leave this way make a complete code in the decoder's sense. |
| DeflateSymbols.GenCodes | Smjy/externals/zlib/trees.c:572-605 | The codes are those of section 3.2.2 of RFC 1951 with their bits reversed. |
| LengthRuns.ScanTree | Smjy/externals/zlib/trees.c:703-742 | What is counted is exactly how often the sending loop uses each symbol. |
| LengthRuns.TwoTrees | Smjy/externals/zlib/trees.c:748-793 | Decoding the repeat codes of both trees, sent one after the other, restores both length lists, and what follows is untouched. |
| LengthCodes.StaticInit | Smjy/externals/zlib/trees.c:232-312 | The generated tables name for every length and distance the code in whose range it lies. |
| LengthCodes.LengthsAgree | Smjy/externals/zlib/inftrees.c:60-71 | The decoder's constants for length codes, base and extra bits, are those that the encoder's loops generate. |
| TreeSender.BuildBlTree | Smjy/externals/zlib/trees.c:799-827 | The header that follows from the two trees can be sent with a complete code, a cheapest one for the symbols used, all its lengths within 3 bits, and none sent behind the last that is not zero; opt_len grows by exactly the bits of the header. |
| TreeRoundTrip.HeaderIsRead | Smjy/externals/zlib/trees.c:834-858 | The only meaning of a header that was sent is its two length lists, and the bits behind it are left. |
| TreeReceiver.TableStates | Smjy/externals/zlib/inflate.c:920-1041 | On any input whatever: the outcome, an error or two tables built for the lengths that the bits mean, is the one the format demands. |
| InflateTable.InflateTable | Smjy/externals/zlib/inftrees.c:32-304 | -1 is returned exactly for over-subscribed sets and incomplete ones that are not allowed; on 0 every slot of the table is set and right; 1 is never returned for the alphabets and root sizes that the constants are meant for; nothing outside the table changes. |
| TableSpace.ConstantsSuffice | Smjy/externals/zlib/inftrees.h:38-50 | For every complete code of up to 286 lengths with a root of 9 bits, and of up to 30 distances with a root of 6, the tables take no more than 852 and 592 entries: proved, where the source refers to an exhaustive search. |
| SubTables.SubtableBits | Smjy/externals/zlib/inftrees.c:266-274 | The sub-table made is as large as its first code needs, holds the codes of its group, and in a complete code it is filled by them. |
| InflateTable.LookupDecodes | Smjy/externals/zlib/inflate.c:1053-1071 | Bits that begin with the code of a symbol are resolved by the two levels to that symbol and the length of its code. |
| InflateTable.LookupTotal | Smjy/externals/zlib/inflate.c:1053-1071 | In a table of a complete code every bit string is resolved to some symbol whose code it begins with. |
| DeflateCodes.PrefixFree | Smjy/externals/zlib/inftrees.c:76-86 | In reversed form too no code begins with another. |
| SymbolReading.ReadSymbol | Smjy/externals/zlib/inflate.c:1053-1071 | Reading byte by byte, as few as are needed, takes the entry that the whole input decides, and fails only if its bits are not there. |
| FastItems.FastItem | Smjy/externals/zlib/inffast.c:103-283 | Without asking for input within an item, the fast loop reads the same item and leaves the same bits as the slow states, given six bytes. |
| InflateBlock.InflateFast | Smjy/externals/zlib/inffast.c:50-304 | It stays within its input and output, and where it leaves off, the output, bits and mode are those of the slow states. |
| InflateBlock.InflateBody | Smjy/externals/zlib/inflate.c:1044-1196 | Fast and slow together give exactly what the bits mean, on any input and over any calls; a match that reaches beyond the window is refused, and if output stalls every buffer is full. |
| InflateWindow.History.UpdateWindow | Smjy/externals/zlib/inflate.c:396-444 | The circular window keeps the last bytes of all output, as many as it can hold. |
| InflateCopy.FastCopy | Smjy/externals/zlib/inffast.c:155-256 | Whether the source lies in the window, wraps around in it or lies in the output, the bytes at the given distance are copied, overlapping ones repeated; it is refused exactly when the distance exceeds what is kept. |
| InflateCopy.MatchState | Smjy/externals/zlib/inflate.c:1146-1190 | The slow copy, in pieces, continues the same match. |
| DeflateBody.ReceiveBody | Smjy/externals/zlib/trees.c:1064-1109 | A block body that compress_block sent is turned back into the text its tokens stand for, or into a beginning of it that fills all room. |
| DeflateBody.BodyRuns | Smjy/externals/zlib/trees.c:1064-1109 | The meaning of the bits of a body, read with tables for the sender's codes, is the text, with no distance beyond the sender's. |
| StoredBlocks.StoredIsRead | Smjy/externals/zlib/trees.c:863-881 | The only outcomes of reading a stored block that was sent are its bytes, or a beginning of them when output stalls. |
| StoredBlocks.StoredState | Smjy/externals/zlib/inflate.c:887-919 | On any input: the bytes after the next boundary if the two lengths agree, or the error. |
| FixedCodes.FixedTables | Smjy/externals/zlib/inflate.c:278-319 | The fixed tables decode the codes of section 3.2.6 of RFC 1951. |
| BlockWriting.TreeState.FlushBlock | Smjy/externals/zlib/trees.c:911-1008 | The form is the shortest in bytes of the three there are, with ties as the source has them, where the trees are the best for the symbols of the tokens; the bits added are a well-formed block of that form for the tokens, with end padding after the last one, and the counts start afresh. |
| BlockLength.BodyLength | Smjy/externals/zlib/trees.c:935-937 | What the counted symbols take, times their lengths and extra bits, is the number of bits that the tokens are sent with, for any code. |
| InflateStream.Inflate | Smjy/externals/zlib/inflate.c:849-1196 | On any input: block after block as each one's bits mean, up to the last or the first that cannot be read, and then to the next byte boundary. |
| RawDeflate.BlockIsRead | Smjy/externals/zlib/inflate.c:849-886 | Any block that was sent, of any form, means the text of its tokens; nothing else can come of reading it but a stop for want of room. |
| Crc32.CrcTable.constructor | Smjy/externals/zlib/crc32.c:88-162 | The four tables hold what shifting out a byte followed by 0 to 3 zero bytes does. |
| Crc32.CrcTable.Crc32z | Smjy/externals/zlib/crc32.c:202-234 | Byte by byte through the table it is the bitwise division. |
| Crc32.CrcTable.Crc32Little | Smjy/externals/zlib/crc32.c:266-297 | Four bytes at once, from any alignment, give the same. |
| Crc32Combine.Combine | Smjy/externals/zlib/crc32.c:372-425 | For all strings, from two checksums and the second length alone, the checksum of the strings put together. |
| Adler32.Adler32z | Smjy/externals/zlib/adler32.c:63-131 | Reducing only now and then gives the sums of section 2.2 of RFC 1950, and no sum exceeds 32 bits. |
| Adler32.AddAllJoined | Smjy/externals/zlib/adler32.c:63-131 | A checksum may be continued over the parts of a string. |
| Adler32.Combine | Smjy/externals/zlib/adler32.c:143-169 | For all strings, the checksum of the two put together. |
| RbInsert.InsertColor | AlgorithmExercise/c/struct/rbtree.c:84-220 | From a red-black tree with one red node linked in: properties 2, 4 and 5 hold again, parent links and order are right; the states on the way are all there are, each one store from the one before and the last the present one, and every one is safe to traverse. |
| RbErase.EraseColor | AlgorithmExercise/c/struct/rbtree.c:226-407 | From a tree that lacks one black node on the paths through one place: the same; no sibling is ever missing. |
| RbErase.Unlinked | AlgorithmExercise/c/struct/rbtree.c:233-239 | Unlinking a black node without children from a red-black tree leaves such a place. |
| RbRoots.RbRoot.WriteKid | AlgorithmExercise/c/struct/rbtree.c:37-57 | A store whose new child leads only to nodes apart from the one written leaves no loop and no way out of the tree; every store of a child pointer is made through it. |
| RbRoots.RbRoot.Rotate | AlgorithmExercise/c/struct/rbtree.c:69-82 | The rotation that ends cases of both algorithms leaves the pointers, parents and colours of the turned tree, the surroundings included. |
| RbGraph.WalksEnd | AlgorithmExercise/c/struct/rbtree.c:37-57 | In a safe state no walk along child pointers comes back to a node, so a traversal completes. |
| RbTrees.TreeIsSafe | AlgorithmExercise/c/struct/rbtree.c:37-57 | Pointers that stand for a tree are such a state. |
| RbTrees.PlugGood | AlgorithmExercise/c/struct/rbtree.c:16-34 | A subtree that fits its place by height and colour makes the whole tree red-black. |
| RbWalk.Insert | AlgorithmExercise/c/struct/rbtree.h:69-76 | Linking and rebalancing together: the node stands between its two neighbours and the tree is red-black. |
| RbWalk.First | AlgorithmExercise/c/struct/rbtree.c:466-476 | The first node of the order, or null for no tree. |
| RbWalk.Next | AlgorithmExercise/c/struct/rbtree.c:492-521 | What comes first of all that comes after the node, or null. |
| RbWalk.Prev | AlgorithmExercise/c/struct/rbtree.c:524-550 | What comes last of all that comes before it. |
| RbWalk.Neighbours | AlgorithmExercise/c/struct/rbtree.c:492-550 | These are the entries next to the node in the order of the whole tree. |
| Semigroup.PowerAccumulate | AlgorithmExercise/c/math/13.cpp:21-41 | Halving the exponent and squaring gives r times the n-th power, for any associative operation. |
| Semigroup.PowerSemigroup | AlgorithmExercise/c/math/13.cpp:43-56 | The n-th power, for every positive n. |
| MillerRabin.MillerRabinTest | AlgorithmExercise/c/math/13.cpp:58-80 | True exactly if n behaves like a prime for w: the power n - 1 of w is one modulo n, and each time squaring w^q reaches one it does so from one or from minus one. |
| MillerRabin.PrimesPass | AlgorithmExercise/c/math/13.cpp:58-80 | No prime fails, for any base; by Fermat's little theorem and the square roots of one. |

## Left out

bzip2:

- File functions, verbosity output and memory allocation.
- StreamCodec.Decompress: the refusals are one outcome, whether the source reports bad data, a bad magic number or waits for input that never comes, and what has been given out before a refusal is not stated; bytes that take the loop over the selectors out of its array are excepted, as there the source has no defined behaviour.
- Resuming inside header fields: a field pulls the next piece of input where the source returns and is called again. Only reading symbols is modelled with explicit saving and restoring of its state.
- The symbols of a block are read before they are decoded.
- The compressor's `zbits` is one growing sequence with a position up to which it has been handed out; the source starts it afresh with every block.
- Header bits of `fallbackSort` and the marks in `ftab` are arrays of booleans; pointer arrays have exactly one entry per byte of the block; of the overlays of memory only those of `ptr` with `mtfv` and of the block with `eclass` are modelled.
- `mainSort` works on an integer copy of the block with its overshoot, and its `quadrant` is a separate array.
- Unrolled loops are rolled up.
- StreamCodec.RoundTrip: integers are unbounded but for the 32-bit words of checksums and bit buffers; that the 32-bit counters do not overflow follows from the bounds on block sizes and is not stated.

zlib:

- gzip and zlib headers and trailers, dictionaries, changes of level, the strategies for run-length only, Huffman only and stored only, `inflateSync`, copying and resetting.
- The window has 512 to 32768 bytes; that `deflate` refuses a repeated call without progress (`Z_BUF_ERROR` for empty input and no greater flush) is not modelled.
- Integers are unbounded except where the checksums and the hash need their width: 16-bit frequencies and the byte for the depth of a tree node do not wrap around.
- Output stalls of the compressor are a parameter that says when a call has to end; blocks are sent to a sink that can grow.
- Where `inflate` returns for want of input, the model pulls the next piece; where it returns for want of room, the next buffer.
- `send_bits` adds where the source uses or; `send_tree` collects its codes before they are sent; the loop in `deflate` that passes over a match lowers the lookahead step by step; comparisons and checksums are not unrolled; zeroing ahead of the data serves only the bounds of reads.
- Big-endian checksums, and the null buffers that ask for initial values.
- TreeBuilding.BuildTree: where a cheapest code is too long for the limit, that the repaired lengths cost least of those within it is not stated; the repair does not aim at it.

Red-black tree:

- `__rb_erase_augmented` and the helpers of `rbtree_augmented.h` are not part of this model: erasing begins where a black node was unlinked. `__rb_change_child` is modelled from what its callers rely on.
- The two mirrored halves of each loop are one body with a side; stores of parents and colours may come before the child stores beside them, which a traversal cannot see.
- Parent pointer and colour are two fields. Memory order, RCU variants, augmented callbacks, postorder walks, `rb_replace_node` and trees with a cached leftmost node.

Miller-Rabin:

- MillerRabin.MillerRabinTest: integers are unbounded, so products and the conversions of `odd` and `half` to int do not overflow.
