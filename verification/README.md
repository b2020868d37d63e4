# The gzip codec, the allocator and the scheduler of meinOS, in Dafny

meinOS is a small microkernel operating system. Its hardest code is the gzip program in `apps/gzip`: a complete
DEFLATE compressor and decompressor (RFC 1951) with the member format of RFC 1952. This project models that codec
from the bit packer to the whole file, and with it two kernel state machines: the first-fit allocator
`kernel2/malloc.c` and the round-robin scheduler `kernel2/procm.c`.

## Main theorems

1. **Files come back, alone and in a row.** `GzipFile.RoundTrip`: for all data, all levels 1 to 9, all names, time
   stamps and initial memory contents, and for every way in which reads are cut into pieces, `unzip` of what `zip`
   wrote returns exactly the data, with check value and length verified. It rests on both sides being proved against
   one reference decoder (`Rfc1951.dfy`) that knows no tables, no windows and no bit buffers. `Members.ManyBack` goes
   through the headers and the loop over members: that any number of compressed files, put one behind the other, are
   decompressed to all their data is false for this version, and `Members.Gunzip` proves exactly when it holds. A
   member that ends where the input buffer of 32768 bytes ends is taken for the last one (`Members.Lost` has such a
   file), so all data come out if and only if there are none behind such a member.
2. **inflate is the reference decoder.** `Inflate.InflateAll`: for every file, valid or not, `inflate` either ends
   with the reference output and stands behind the last byte used, or stops for a reason that the reference confirms,
   with the error number that belongs to it. The constants that both share are proved against RFC 1951 in other words
   (`InflateTrees.OrderIs`, `TokenCode.TablesClosed`).
3. **Exactly when huft_build's tables decode.** That every complete set of code lengths is decoded is false for this
   version of `huft_build`: a subtable may be made wider than the table bits. `HuftExample.BuildLopsided` calls it on
   such a set; `HuftExact.DecodesIff` gives the condition, `Safe`, on code lengths and table bits, that is necessary
   and sufficient; `Inflate.CallsSafe` shows that the calls in `inflate.c` meet it.
4. **The Huffman codes are optimal, and as flat as optimal codes can be.** `TreeMain.BuildTree`: the lengths are
   complete, no longer than allowed, every symbol in use has a code, a rarer symbol never has a shorter one, `opt_len`
   and `static_len` change by exactly the bits used. When no length is clamped no prefix code for the same frequencies
   is cheaper (`Huffman.HuffLower`), and none that is as cheap has a shorter longest code: that is what the depth as
   tie breaker is for (`HuffmanDepth.DepthLower`). A length is clamped if and only if no cheapest code keeps to the
   limit.
5. **The overflow repair of gen_bitlen.** `LengthRepair.Repair`: it ends with overflow 0, never searches below length
   1, keeps the number of leaves, leaves Kraft's sum exactly 1, and lengthens a code only if the longer ones cannot
   take the overflow.
6. **A block is its tokens, and compressed_len is exact.** `FlushBlock.Encoder.Flush`: over any run of blocks
   `compressed_len` is the number of bits sent, and every block, stored, static or dynamic, expands to the tokens
   tallied. A block takes at most five bytes more than the bytes it stands for, when these are still there, and at
   most 17 bits more than either kind of trees; the rule compares whole bytes, and `FlushBlock.LeastIff` says exactly
   when its choice has the fewest bits.
7. **LZ77.** `DeflateFast.Compress`: across lazy evaluation, window slides and hash chains, all tokens in a row expand
   to the input, with every match of 3 to 258 bytes, at most MAX_DIST back, and from bytes already there. The chains
   hold every string that is not too old (`HashChains.Reached`), so a search that is not cut short finds a longest
   match of the window (`LongestMatch.Exhaustive`). Data that were sent without any match have no plain repetition: no
   three bytes that stood up to 4096 bytes before, without a string of the same hash in between.
8. **CRC.** `Crc.UpdateCrc`: the table-driven register is division by the polynomial, bit by bit; `Crc.UpdatePieces`:
   for any cutting into flushes; `CrcCheck.CrcLong`: the check value is the one of section 8 of RFC 1952.
9. **Every byte has one owner.** `Allocator.Heap`: on raw bytes with headers inside the managed memory, every byte
   given to the allocator is in exactly one block; the free list is sorted; no operation touches a byte of another
   owner. `malloc` keeps this exactly for requests that do not wrap around 32 bits (`KernelExamples.AllocWrapped`
   makes one).
10. **Fair slices, and waiting ends.** `Scheduler.Processes` keeps processes in the list their flag names; exited
    processes never run again, and `Scheduler.Fair` gives every runnable process exactly its slice in every round.
    `Waiting.WaitMeetsExit`: a parent calls `proc_waitpid`, the timer runs until a child has its turn and exits; the
    parent is awake with the number and the status of the child in the four cases waitpid names, and asleep in all
    others.

## How the model is built

Objects that the source updates in place are classes (`BitWriter`, `BitReader`, `Window`, `Encoder`, `Heap`, `Input`,
`Processes`). The static arrays of `trees.c` and `deflate.c` are sequences that the methods return anew. 16-bit fields
wrap where the source declares them so. What memory holds before it is written is a parameter, never assumed.
`get_byte` at the end of the file and the null table of `huft_build` are results of their own (`Eof`, `Crash`).
The reference decoder answers `Undefined` where the source reads cells that were never written or copies from before
the beginning of the output, which RFC 1951 excludes.

Where the code and its comments disagree, the model follows the code:

- `huft_build` is said to return 2 when all lengths are zero; it returns 0 with a null table (`inflate.c:311-316`).
- `build_tree` says that a forced code is 0 or 1; it can be 2 (`trees.c:640-644`). It has no extra bits either way.
- `build_bl_tree` could leave its loop with 2, below the minimum; it does not, since a plain length always occurs.
- `base_length[28]` is never written, and never used.
- Near the end of a file that does not slide the window, `longest_match` reads behind the window although its
  assertion forbids it (`deflate.c:390`). Those bytes are arbitrary in the model; the match is cut to the lookahead.
- After a slide `match_start` may lie before the window, as a wrapped unsigned number (`deflate.c:533`); here it is an
  integer below zero, and the distance is the same.
- `memcpy` in `inflate_codes` is called with overlapping ranges when the distance is near the window size
  (`inflate.c:562-564`); the repository's `memcpy` copies forward, in words (`lib/stdlibc/string.c:179-192`), so that
  no byte is overwritten before it is read; that is modelled.
- `_malloc_insertlist` means to join both neighbours; a block joined to the one before is not joined to the one behind
  (`FreeList.InsertCoalesced` says exactly when neighbours stay apart).
- `proc_sleep` of a process that has exited puts it back on a list; `Scheduler.Processes.Sleep` states that the
  invariant survives exactly when the process has not exited (`KernelExamples.SleepAfterExit` breaks it). All callers
  in the kernel pass the current process.

- The loop over members takes an empty input buffer for the end of the file (`gzip.c:549`); see `Members.Gunzip`.
- The second flag bit means a continuation part to `get_method` and a header checksum to RFC 1952; the model follows
  `gzip.h:147`.

## Model

| member | source | states |
|---|---|---|
| `BitIO.BitWriter.constructor` | apps/gzip/bits.c:96-112 | an empty writer |
| `BitIO.BitWriter.SendBits` | apps/gzip/bits.c:118-140 | bytes written plus the valid bits of the buffer grow by exactly the bits of the value, lowest first; the unused bits of the buffer stay zero |
| `BitIO.BitWriter.Windup` | apps/gzip/bits.c:162-174 | the bits are completed with zeros to a whole byte, and the buffer is empty |
| `BitIO.BitWriter.CopyBlock` | apps/gzip/bits.c:180-200 | padding, LEN, its complement and the bytes, as bits |
| `BitIO.BitReader.NeedBits` | apps/gzip/inflate.c:218 | bits are there exactly if the file has them; nothing is consumed; the buffer never holds more than 23 bits |
| `BitIO.BitReader.DumpBits` | apps/gzip/inflate.c:219 | exactly n bits are consumed |
| `BitIO.BitReader.GetBits` | apps/gzip/inflate.c:616-618 | the value of the next n bits, or the end of the file |
| `BitIO.BitReader.ReturnLookahead` | apps/gzip/inflate.c:933-939 | the byte position is the number of consumed bits, rounded up |
| `BitRoundTrip.SendAndRead` | apps/gzip/bits.c:118-174 | for every list of numbers and widths: the bytes are the exact concatenation, reading gives the numbers back, and the reader ends at the last byte |
| `BitRoundTrip.SentFrom` | apps/gzip/bits.c:118-140 | where number i stands among the bits sent |
| `Codes.BiReverse` | apps/gzip/bits.c:147-157 | the low len bits in reverse order; the result never needs more than 16 bits |
| `Codes.NextCodes` | apps/gzip/trees.c:577-582 | the first code of every length, without loss in 16 bits |
| `Codes.GenCodes` | apps/gzip/trees.c:568-599 | every symbol of non-zero length gets its canonical code (section 3.2.2 of RFC 1951), bit-reversed and below 2^len; nothing else is touched |
| `Codes.PrefixFree` | apps/gzip/trees.c:568-599 | canonical codes of lengths that satisfy Kraft: none starts another |
| `Codes.SentPrefixFree` | apps/gzip/trees.c:590-598 | the same of the bits sent from the table that gen_codes fills |
| `Codes.DecodeSymIs` | apps/gzip/inflate.c:511-520 | at most one code starts a bit string: the specification of the table walk |
| `HuftMain.CountLengths` | apps/gzip/inflate.c:302-310 | how often each length occurs |
| `HuftMain.FindBounds` | apps/gzip/inflate.c:319-333 | shortest and longest length |
| `HuftMain.Adjust` | apps/gzip/inflate.c:336-342 | 2 is returned exactly if the codes need more patterns than there are; otherwise y patterns are free |
| `HuftMain.Offsets` | apps/gzip/inflate.c:345-350 | where the symbols of each length begin |
| `HuftMain.SortValues` | apps/gzip/inflate.c:353-358 | the symbols sorted by length, then by number |
| `HuftSteps.SizeTable` | apps/gzip/inflate.c:383-396 | the width of a subtable: the first at which the codes left fill it, or the last one needed |
| `HuftSteps.Increment` | apps/gzip/inflate.c:444-447 | the backwards increment is the successor of a bit-reversed code |
| `HuftSteps.Fill` | apps/gzip/inflate.c:439-442 | exactly the cells that start with the code get the entry |
| `HuftBuilder.MakeLevels` | apps/gzip/inflate.c:377-421 | the tables up to the level of the code exist and are linked; all cells done before stay right |
| `HuftBuilder.StoreCode` | apps/gzip/inflate.c:423-442 | the cells of one more code are right |
| `HuftBuilder.Backup` | apps/gzip/inflate.c:449-454 | back to the table in which the next code begins |
| `HuftBuilder.OneCode` | apps/gzip/inflate.c:374-455 | one code more is decoded by the tables |
| `HuftMain.AllCodes` | apps/gzip/inflate.c:361-456 | all cells of all tables are right |
| `HuftMain.BuildTables` | apps/gzip/inflate.c:267-461 | the result code for every input; the table bits; and what every cell of every table holds, unwritten ones included |
| `HuftMain.ResultIsKraft` | apps/gzip/inflate.c:336-342 | with a length in use: 2 exactly if Kraft's sum is above 1, 1 exactly if it is below 1 and the longest length is not 1 |
| `Huft.TablesDecode` | apps/gzip/inflate.c:511-520 | walking the tables over a bit string that starts with the code of s finds s and its length |
| `HuftExact.SafeIsExact` | apps/gzip/inflate.c:383-396 | for safe lengths no subtable is wider than the table bits |
| `HuftExact.UnsafeFails` | apps/gzip/inflate.c:383-420 | for all others some code is not found |
| `HuftExact.DecodesIff` | apps/gzip/inflate.c:267-461 | a complete set is decoded if and only if it is safe for the table bits |
| `HuftExample.LopsidedFails` | apps/gzip/inflate.c:383-420 | 63 codes of 6 bits and 128 of 13, with 6 table bits: complete, and not decoded |
| `HuftExample.BuildLopsided` | apps/gzip/inflate.c:267-461 | huft_build called on it: result 0, 6 table bits, and tables that miss a code |
| `Inflate.SafeFew` | apps/gzip/inflate.c:833-834 | few symbols are safe |
| `Inflate.CallsSafe` | apps/gzip/inflate.c:671-847 | the code sets and table bits of inflate.c are safe |
| `Inflate.BuildFor` | apps/gzip/inflate.c:671-847 | every call of huft_build that inflate.c uses yields tables that decode |
| `OutputWindow.Window.FlushFull` | apps/gzip/inflate.c:574-578 | a full window is written out; the history is the same |
| `OutputWindow.Window.Put` | apps/gzip/inflate.c:523-529 | one byte more of history |
| `OutputWindow.Window.FastCopy` | apps/gzip/inflate.c:562-567 | the block copy is a byte-by-byte copy of the unbounded history |
| `OutputWindow.Window.SlowCopy` | apps/gzip/inflate.c:570-573 | the same of the slow copy, overlaps included |
| `OutputWindow.Window.CopyMatch` | apps/gzip/inflate.c:558-579 | for every length and every distance within the window and the output: wrap mask, chunks and flushes refine copying from the whole history |
| `OutputWindow.Window.FlushLast` | apps/gzip/inflate.c:941-942 | all history is written |
| `InflateCodes.Walk` | apps/gzip/inflate.c:511-520 | reader and tables: the lookup of the remaining bits, and exactly the bits of the code are consumed |
| `InflateCodes.ReadDist` | apps/gzip/inflate.c:543-555 | the distance of a match as the reference reads it |
| `InflateCodes.OneToken` | apps/gzip/inflate.c:511-580 | one literal, match or end of block as in the reference |
| `InflateCodes.DecodeBlock` | apps/gzip/inflate.c:486-591 | the body of a block is decoded as the reference decodes it, or stops for the same reason and with its error number |
| `Inflate.InflateStored` | apps/gzip/inflate.c:595-644 | stored blocks, section 3.2.4 of RFC 1951; 1 when length and complement do not match |
| `Inflate.InflateFixed` | apps/gzip/inflate.c:648-695 | fixed codes, section 3.2.6 of RFC 1951; 1 for a code that stands for nothing |
| `FixedCodes.FixedComplete` | apps/gzip/inflate.c:661-679 | the fixed literal code is complete, the distance code is not |
| `TokenCode.TablesClosed` | apps/gzip/inflate.c:154-166 | base values and extra bits of all length and distance codes by the closed forms of section 3.2.5 of RFC 1951 |
| `InflateTrees.ReadOrder` | apps/gzip/inflate.c:746-754 | which length each group of three bits sets, symbol by symbol |
| `InflateTrees.OrderIs` | apps/gzip/inflate.c:152-153 | the same of the reference: groups 0 to 2 are for 16 to 18, group 3 for 0, then 8, 7, 9, 6 and so on, in plain numbers |
| `InflateTrees.ReadLengths` | apps/gzip/inflate.c:766-811 | the code lengths, repeats included, or 1 when a repeat goes too far |
| `Inflate.InflateDynamic` | apps/gzip/inflate.c:699-859 | dynamic codes, section 3.2.7 of RFC 1951; 1 or 2 by what is wrong with which set of lengths, in the order of the source |
| `Inflate.InflateBlock` | apps/gzip/inflate.c:863-905 | any block; 2 for a bad type |
| `Inflate.InflateBlocks` | apps/gzip/inflate.c:923-931 | the sequence of blocks, up to the last one or the first error |
| `Inflate.InflateAll` | apps/gzip/inflate.c:909-950 | output and byte position of the reference, or a stop that it confirms, with its error number |
| `Heap.PqDownHeap` | apps/gzip/trees.c:451-471 | the order is restored from k on; the elements are the same |
| `Heap.RootSmallest` | apps/gzip/trees.c:422-443 | the root is smallest by frequency, then depth |
| `HuffmanTree.PqRemove` | apps/gzip/trees.c:430-435 | the smallest element leaves the heap |
| `HuffmanTree.Merge` | apps/gzip/trees.c:656-675 | the two nodes that are first by frequency, then by depth, get a father; frequency and depth do not wrap |
| `HuffmanHeight.MergeAll` | apps/gzip/trees.c:653-677 | one root remains; every node was taken exactly once, sons before fathers, by rising weight; the weights merged add up to Huffman's cost, and the root has the depth that joining by weight and depth gives |
| `HuffmanHeight.HeightStep` | apps/gzip/trees.c:656-675 | a merge does not change the depth that is to come |
| `HuffmanLoop.RisingStep` | apps/gzip/trees.c:656-671 | nodes are taken out by rising weight |
| `HuffmanLoop.DeepStep` | apps/gzip/trees.c:663-666 | a merge keeps the bound that a tree of height d weighs at least the d-th Fibonacci number |
| `TreeMain.TreeHeight` | apps/gzip/trees.c:663-666 | no tree is higher than 22, so the 8-bit depths do not wrap |
| `TreeMain.RootLow` | apps/gzip/trees.c:656-677 | a tree that weighs less than the Fibonacci number for max_length is no higher than max_length |
| `Huffman.HuffStep` | apps/gzip/trees.c:653-677 | merging any two lightest weights gives Huffman's cost |
| `Huffman.HuffLower` | apps/gzip/trees.c:653-677 | no lengths that satisfy Kraft cost less than Huffman's |
| `Huffman.HuffCode` | apps/gzip/trees.c:653-677 | some lengths that satisfy Kraft cost exactly that |
| `HuffmanDepth.DepthLower` | apps/gzip/trees.c:437-443 | lengths that cost no more than Huffman's have a longest one of at least the depth of the tree built with depth as tie breaker |
| `PathCost.PathEnd` | apps/gzip/trees.c:501-521 | weights times depths are the sum of the fathers' weights |
| `BitLengths.FrontierStep` | apps/gzip/trees.c:506-521 | what a node hands to its sons |
| `BitLengths.BalancedEnd` | apps/gzip/trees.c:501-521 | after clamping, Kraft's sum exceeds 1 by exactly the overflow |
| `GenBitLen.FirstPass` | apps/gzip/trees.c:499-521 | lengths, counts, overflow, opt_len and static_len of the first pass; no length above the height of the tree, and no overflow if that is at most max_length |
| `LengthRepair.Repair` | apps/gzip/trees.c:527-538 | ends with overflow 0, never below length 1, same number of leaves, Kraft's sum exactly 1; a length is touched if and only if the longer ones cannot take the overflow |
| `LengthRepair.SecondPass` | apps/gzip/trees.c:540-557 | leaves get lengths with the repaired counts, longest first by rising frequency; opt_len follows |
| `LengthRepair.GenLengths` | apps/gzip/trees.c:483-558 | the lengths are complete and at most max_length; unclamped they cost what the tree costs, and a tree no higher than max_length is not clamped |
| `TreeBuild.GatherLeaves` | apps/gzip/trees.c:619-632 | the symbols in use |
| `TreeBuild.ForceTwo` | apps/gzip/trees.c:634-646 | at least two codes; what is subtracted for the forced ones |
| `TreeBuild.Heapify` | apps/gzip/trees.c:648-651 | a heap of the same elements |
| `TreeMain.HuffIsCheapest` | apps/gzip/trees.c:601-608 | lengths of Huffman's cost are cheapest of all prefix codes |
| `TreeMain.CheapestOrder` | apps/gzip/trees.c:601-608 | in a cheapest code a rarer symbol has no shorter code |
| `TreeMain.NoFlatter` | apps/gzip/trees.c:437-443 | a code as cheap as Huffman's has a code as long as the tree is deep |
| `TreeMain.ClampedIff` | apps/gzip/trees.c:506-508 | no overflow if and only if some cheapest code has no length above max_length |
| `TreeMain.TwoCodes` | apps/gzip/trees.c:634-645 | two codes have one bit each, so forced codes cost what was subtracted |
| `TreeMain.BuildTree` | apps/gzip/trees.c:609-688 | complete codes for all symbols in use, exact opt_len and static_len, a rarer symbol no shorter code; cheapest and flattest when nothing is clamped, and something is clamped if and only if no cheapest code keeps to max_length |
| `StaticTables.InitLengths` | apps/gzip/trees.c:348-361 | length codes of section 3.2.5 of RFC 1951 |
| `StaticTables.InitNear` | apps/gzip/trees.c:363-370 | distance codes up to 256 |
| `StaticTables.InitFar` | apps/gzip/trees.c:372-378 | distance codes beyond |
| `StaticTables.InitStaticLits` | apps/gzip/trees.c:381-392 | the static literal tree is the fixed code |
| `StaticTables.InitStaticDists` | apps/gzip/trees.c:394-398 | the static distance tree is the fixed code |
| `TallyBuffers.TallyToken` | apps/gzip/trees.c:962-985 | the four buffers hold one token more |
| `TallyBuffers.TallyFreq` | apps/gzip/trees.c:963-975 | the frequencies are those of the tokens, in 16 bits |
| `TallyBuffers.FreqSums` | apps/gzip/trees.c:963-975 | how many uses there are in all |
| `BlockStop.GuessIsDot` | apps/gzip/trees.c:988-995 | summing over distance codes is summing over matches |
| `BlockStop.WorthStopping` | apps/gzip/trees.c:986-1000 | a block is stopped exactly if matches are few and the guess is below half of the input |
| `CompressBlock.SaveFlags` | apps/gzip/trees.c:861 | the last flags are stored |
| `CompressBlock.SendBlock` | apps/gzip/trees.c:1011-1055 | the bits of all tokens and of the end of the block |
| `TokenCode.BlockDecodes` | apps/gzip/trees.c:1011-1055 | those bits, decoded, expand to the tokens, and nothing behind them is consumed |
| `TreeCode.TreeOpsMean` | apps/gzip/trees.c:696-784 | the repeat codes stand for exactly the lengths |
| `TreeCode.OpsDecode` | apps/gzip/trees.c:740-784 | sent and decoded, they give the lengths |
| `TreeSend.ScanTree` | apps/gzip/trees.c:696-734 | counts exactly the codes that send_tree sends |
| `TreeSend.SendTree` | apps/gzip/trees.c:740-784 | sends exactly those codes |
| `DynamicCode.LengthsDecode` | apps/gzip/trees.c:841-844 | both trees sent in a row are read back as one list |
| `DynamicCode.OrderDecodes` | apps/gzip/trees.c:835-838 | the code length code is read back |
| `DynamicCode.DynamicDecodes` | apps/gzip/trees.c:823-846 | header and body of a dynamic block decode to its tokens |
| `DynamicSend.LastUsed` | apps/gzip/trees.c:804-810 | the last code length code to send is at least the fourth |
| `DynamicSend.BuildBlTree` | apps/gzip/trees.c:790-816 | a code for every repeat code; opt_len grows by exactly the header |
| `DynamicSend.SendAllTrees` | apps/gzip/trees.c:823-846 | sends exactly the header |
| `BlockLength.TokensLength` | apps/gzip/trees.c:513-520 | bits of the tokens are frequencies times code and extra bits |
| `BlockLength.OpsLength` | apps/gzip/trees.c:811-812 | bits of the repeat codes likewise |
| `BlockMeaning.DynamicBlock` | apps/gzip/trees.c:934-938 | a dynamic block, in any stream, stands for its tokens |
| `BlockMeaning.StaticBlock` | apps/gzip/trees.c:929-933 | a static block likewise |
| `BlockMeaning.StoredBlock` | apps/gzip/trees.c:920-924 | a stored block stands for its bytes at any bit position |
| `BlockTrees.BuildAll` | apps/gzip/trees.c:866-879 | all tokens have codes; opt_len and static_len are the exact sizes of the two encodings |
| `FlushBlock.EmitBlock` | apps/gzip/trees.c:881-939 | the block sent stands for the tokens, its size is that of the encoding the rule chooses, and compressed_len is exact |
| `FlushBlock.NearBest` | apps/gzip/trees.c:881-939 | how far the choice can be from each of the three encodings: 17 bits from either kind of trees, five bytes from the bytes themselves |
| `FlushBlock.LeastIff` | apps/gzip/trees.c:881-939 | exactly when the choice has the fewest bits of the three |
| `FlushBlock.NotLeast` | apps/gzip/trees.c:885-911 | 145 bits of static codes that are sent as 160 stored ones |
| `FlushBlock.Encoder.constructor` | apps/gzip/trees.c:332-402 | tables and an empty block |
| `FlushBlock.Encoder.Tally` | apps/gzip/trees.c:958-1006 | one token more for the block and for the file; full exactly when a buffer is full or stopping is profitable |
| `FlushBlock.Encoder.Flush` | apps/gzip/trees.c:853-952 | a block for the tokens tallied, of the size the rule gives and never much above the best; compressed_len is the number of bits sent; after the last block whole bytes |
| `Hash.Rolls` | apps/gzip/deflate.c:267 | three updates forget what was before |
| `Hash.RollsOn` | apps/gzip/deflate.c:267 | the rolling hash of the next string |
| `Hash.ThirdEqual` | apps/gzip/deflate.c:438-443 | equal hashes and two equal bytes: the third is equal |
| `HashChains.InsertKeeps` | apps/gzip/deflate.c:277-280 | the chain invariant after an insertion |
| `HashChains.SlideKeeps` | apps/gzip/deflate.c:532-548 | and after a slide |
| `HashChains.ReadKeeps` | apps/gzip/deflate.c:552-559 | and after a read |
| `HashChains.Reached` | apps/gzip/deflate.c:277-280 | every string of the dictionary that is not too old is reached from the head of its hash |
| `LongestMatch.MatchLength` | apps/gzip/deflate.c:446-457 | the exact common length, at most 258 |
| `LongestMatch.TryMatch` | apps/gzip/deflate.c:433-457 | a candidate is skipped only if it cannot be longer |
| `LongestMatch.Longest` | apps/gzip/deflate.c:353-476 | a true match, no shorter than any string of the chain that was looked at and the nearest of equally long ones; the chain is followed until a nice match, the allowed number, or the limit, and neither less nor more |
| `LongestMatch.Exhaustive` | apps/gzip/deflate.c:401-476 | a search that is not cut short misses no longer match in the whole window |
| `LongestMatch.MoreEffort` | apps/gzip/deflate.c:353-476 | with higher limits the match found for the same string is no shorter |
| `MatchSearch.HigherLevel` | apps/gzip/deflate.c:224-236 | so a higher level of the same kind never finds a shorter one |
| `FillWindow.Slide` | apps/gzip/deflate.c:526-549 | window, chains and positions move together |
| `FillWindow.ReadMore` | apps/gzip/deflate.c:552-559 | any number of bytes may be read |
| `FillWindow.Fill` | apps/gzip/deflate.c:512-560 | the window holds the data; which strings are in the dictionary; the string start stays below the slide limit |
| `FillWindow.FillUp` | apps/gzip/deflate.c:641-646 | enough lookahead, or the end of the file |
| `Stream.CopyIsData` | apps/gzip/deflate.c:601-604 | expanding a match of repeated data gives the data |
| `Stream.CoverMatch` | apps/gzip/deflate.c:705-707 | one match more covers more of the data |
| `Stream.BlockExtends` | apps/gzip/trees.c:853-952 | one block more and the stream decodes further |
| `DeflateSteps.InsertString` | apps/gzip/deflate.c:277-280 | the string is in its chain; the head returned is the youngest string with this hash, or 0 when there is none |
| `DeflateSteps.MatchInData` | apps/gzip/deflate.c:597-599 | a match in the window, cut to the lookahead, is one in the data |
| `DeflateSteps.FlushAt` | apps/gzip/deflate.c:566-568 | the block behind block_start is sent; a stored one has less than 65536 bytes, and one that is still in the window takes at most five bytes more than it has |
| `Deflate.LmInit` | apps/gzip/deflate.c:285-338 | the state before the first string |
| `Deflate.Search` | apps/gzip/deflate.c:679-699 | the match of longest_match, cut to the lookahead and dropped if short and far; none when the previous match is long enough |
| `Deflate.InsertRun` | apps/gzip/deflate.c:709-722 | all strings of a match are inserted, and no others |
| `Deflate.TakePrevious` | apps/gzip/deflate.c:703-726 | exactly the previous match is sent |
| `Deflate.PassLiteral` | apps/gzip/deflate.c:728-738 | exactly the previous byte is sent |
| `MatchSearch.NoSearch` | apps/gzip/deflate.c:679-683 | no search is made only if the previous match is long enough or no string of the window starts with the same three bytes |
| `MatchSearch.LazyFinds` | apps/gzip/deflate.c:679-699 | a search finds a match where a plain repetition is |
| `MatchSearch.FastFinds` | apps/gzip/deflate.c:589-600 | the same of the fast search |
| `MatchSearch.RunIsPlain` | apps/gzip/deflate.c:679-699 | a run of equal bytes is such a repetition |
| `Deflate.LazyStep` | apps/gzip/deflate.c:671-746 | which token one step adds: the previous match unless the new one is longer, otherwise the byte before, if one waits; what the head of the chain is, and why a search was not made |
| `Deflate.DeflateLazy` | apps/gzip/deflate.c:657-759 | the file decodes to the data; without a match only if the data have no plain repetition |
| `DeflateFast.FastSearch` | apps/gzip/deflate.c:589-600 | the match of longest_match, cut to the lookahead |
| `DeflateFast.BehindMatch` | apps/gzip/deflate.c:606-631 | the state behind a match |
| `DeflateFast.FastStep` | apps/gzip/deflate.c:583-646 | which token one step adds: the match found, or the byte; what the head of the chain is |
| `DeflateFast.DeflateQuick` | apps/gzip/deflate.c:576-650 | the file decodes to the data; without a match only if the data have no plain repetition |
| `DeflateFast.Compress` | apps/gzip/deflate.c:657-759 | for every level and every way of reading, the file decodes to the data, and the tokens expand to it with lengths of 3 to 258 and distances up to MAX_DIST; all of them literals only if the data have no plain repetition |
| `Crc.EntryIs` | apps/gzip/util.c:319-372 | every entry of the table is its index divided for eight steps |
| `Crc.ByTable` | apps/gzip/util.c:63 | eight steps are one lookup |
| `Crc.Step8Plus` | apps/gzip/util.c:63 | division is linear |
| `Crc.UpdateCrc` | apps/gzip/util.c:50-68 | the register after any bytes, by the bitwise definition |
| `Crc.RegisterJoin` | apps/gzip/util.c:123-133 | two pieces in a row |
| `Crc.UpdatePieces` | apps/gzip/util.c:123-133 | any pieces in a row |
| `CrcCheck.FlippedByte` | apps/gzip/util.c:63 | ones in the low byte of the register complement the next byte |
| `CrcCheck.FlippedAll` | apps/gzip/util.c:56-67 | starting with all ones is complementing the first four bytes |
| `CrcCheck.CrcNone` | apps/gzip/util.c:56-67 | the check value of no bytes is 0 |
| `CrcCheck.CrcShort` | apps/gzip/util.c:56-67 | the check value of any bytes from a register of zero |
| `CrcCheck.CrcLong` | apps/gzip/util.c:56-67 | of four bytes or more: the complement of the remainder of the bytes with the first four complemented |
| `GzipHeader.LongBack` | apps/gzip/gzip.h:211-223 | a number of four bytes is read back modulo 2^32 |
| `GzipHeader.LongBits` | apps/gzip/gzip.h:211-223 | lowest byte first |
| `GzipHeader.HeadBack` | apps/gzip/gzip.c:834-923 | every header, with any of its fields, is read back whatever follows |
| `GzipHeader.HeadForth` | apps/gzip/gzip.c:834-923 | and nothing else is |
| `GzipHeader.PassExtra` | apps/gzip/gzip.c:888-896 | the extra field is skipped, or the input ends |
| `GzipHeader.CopyName` | apps/gzip/gzip.c:905-914 | the name is copied if it fits |
| `GzipHeader.PassString` | apps/gzip/gzip.c:900-920 | a name or comment is skipped |
| `GzipHeader.GetMethod` | apps/gzip/gzip.c:813-941 | a header is accepted or refused by what it says; whatever is accepted is a header; which complaint is made when |
| `InputBuffer.Input.FillInbuf` | apps/gzip/util.c:83-104 | the next piece of the file, however many bytes every read brings |
| `InputBuffer.Input.GetByte` | apps/gzip/gzip.h:186 | the bytes one after the other; the buffer is empty exactly at multiples of its size and at the end |
| `GzipFile.StreamShift` | apps/gzip/inflate.c:610-612 | a stream means the same at any byte of a file |
| `GzipFile.StreamInFile` | apps/gzip/zip.c:50-68 | the stream decodes inside the file |
| `GzipFile.PutHeader` | apps/gzip/zip.c:39-65 | the bytes of a header |
| `GzipFile.Zip` | apps/gzip/zip.c:26-88 | a header with the name and time stamp, a stream for the data, check value and length |
| `GzipFile.CheckTail` | apps/gzip/unzip.c:58-76 | which of the trailer errors is reported |
| `GzipFile.Unzip` | apps/gzip/unzip.c:30-77 | what every result says about the stream and the trailer, and where the member ends |
| `GzipFile.UnzipsBack` | apps/gzip/unzip.c:30-77 | of a file that zip wrote it is the data |
| `GzipFile.RoundTrip` | apps/gzip/unzip.c:30-77 | every file comes back |
| `Members.UnzipsMember` | apps/gzip/unzip.c:30-77 | a member inside a file comes back, whatever is before and behind it |
| `Members.Gunzip` | apps/gzip/gzip.c:544-555 | of any members in a row, with or without trailing garbage: the data up to the first that ends where a buffer ends; all of them if and only if there are no data behind such a member |
| `Members.AllOut` | apps/gzip/gzip.c:549 | that equivalence |
| `Members.StoredFile` | apps/gzip/trees.c:920-924 | a file with a single stored block |
| `Members.Lost` | apps/gzip/gzip.c:549 | a member of exactly 32768 bytes, behind which everything is lost |
| `Members.ZipMany` | apps/gzip/zip.c:26-88 | files compressed one by one are members in a row |
| `Members.ManyBack` | apps/gzip/gzip.c:544-555 | they come back under that condition, a single one always |
| `Memory32.PutGet` | kernel2/malloc.c:25-30 | a word written is read back; other bytes stay |
| `FreeList.InsertCovers` | kernel2/malloc.c:51-82 | insertion loses and gains no byte |
| `FreeList.InsertSorted` | kernel2/malloc.c:51-82 | the list stays sorted and without overlap |
| `FreeList.InsertCoalesced` | kernel2/malloc.c:65-81 | no two neighbours touch afterwards, except exactly when the block filled a gap |
| `FreeList.GapLeavesTwo` | kernel2/malloc.c:65-81 | such a gap |
| `FreeList.TakeSorted` | kernel2/malloc.c:120-136 | the list after a block is taken or split |
| `FreeList.TakeCovers` | kernel2/malloc.c:120-136 | what is taken and what is left are the block |
| `Malloc.InsertedFront` | kernel2/malloc.c:54-61 | the headers in memory form the new list |
| `Malloc.InsertedLeft` | kernel2/malloc.c:65-67 | also when joined to the block before, whatever the stale header holds |
| `Malloc.InsertedBehind` | kernel2/malloc.c:68-81 | also when linked, and joined to the block behind |
| `Malloc.CutDone` | kernel2/malloc.c:120-136 | also when a block is taken or split |
| `Allocator.OwnedApart` | kernel2/malloc.c:51-193 | blocks in use overlap neither each other nor free ones |
| `Allocator.OneOwner` | kernel2/malloc.c:51-193 | every byte given is in exactly one block |
| `Allocator.WrappedRequest` | kernel2/malloc.c:126-177 | a request that wraps describes no block |
| `Allocator.Heap.constructor` | kernel2/malloc.c:41-45 | no memory yet |
| `Allocator.Heap.InsertList` | kernel2/malloc.c:51-82 | the list with the block inserted; only free bytes and the block change |
| `Allocator.Heap.DonateMem` | kernel2/malloc.c:89-96 | the memory is free; null is ignored |
| `Allocator.Heap.GetMem` | kernel2/malloc.c:102-106 | the same of a page |
| `Allocator.Heap.Search` | kernel2/malloc.c:115-139 | the first block of exactly the size, or of at least the size and a header in 32 bits; all before it fail both tests |
| `Allocator.Heap.Cut` | kernel2/malloc.c:120-136 | memory represents the list without the block or its first part, which is marked as in use; only free bytes change |
| `Allocator.Heap.GetFree` | kernel2/malloc.c:113-142 | first fit in the list as fed by the pages asked for, and no page more than needed |
| `Allocator.Heap.Alloc` | kernel2/malloc.c:176-180 | a new owner for a free block, all others untouched; a proper block exactly if the size does not wrap |
| `Allocator.Heap.Free` | kernel2/malloc.c:187-193 | the block is free again, all others untouched |
| `Allocator.Heap.Write` | kernel2/malloc.c:176-180 | owners may write their data: the headers are out of reach |
| `KernelExamples.AllocWrapped` | kernel2/malloc.c:176-180 | a request of 2^32 - 16 bytes served from one page leaves a header that describes no block |
| `RoundRobin.Spend` | kernel2/procm.c:273-291 | ticks left and turns taken add up |
| `RoundRobin.SpendAll` | kernel2/procm.c:286-291 | slices are filled after exactly the ticks that were left |
| `RoundRobin.Rounds` | kernel2/procm.c:256-299 | k rounds are k slices each |
| `RoundRobin.NoStarving` | kernel2/procm.c:256-299 | everybody runs before the second refill |
| `Scheduler.RemoveGone` | lib/libmeinos/llist.c:169-213 | a process is removed once and for all |
| `Scheduler.NextIsTick` | kernel2/procm.c:273-291 | a call of the scheduler is one tick of the slices |
| `Scheduler.Fair` | kernel2/procm.c:256-299 | every runnable process gets exactly its slice in every round |
| `Scheduler.RunsSoon` | kernel2/procm.c:256-299 | no runnable process starves |
| `Scheduler.EqualShares` | kernel2/include/procm.h:33 | with slices of one tick: in k times as many ticks as processes each runs k times |
| `Scheduler.Processes.constructor` | kernel2/procm.c:40-43 | no processes |
| `Scheduler.Processes.Schedule` | kernel2/procm.c:256-299 | who runs next, whose ticks change, when to idle or shut down |
| `Scheduler.Processes.Create` | kernel2/procm.c:81-117 | a new process in the list its flag names |
| `Scheduler.Processes.Sleep` | kernel2/procm.c:177-185 | moves to the other list; the invariant holds exactly if the process has not exited |
| `Scheduler.Processes.Wake` | kernel2/procm.c:192-199 | moves back |
| `Scheduler.Processes.Exit` | kernel2/procm.c:514-538 | in no list any more; a waiting parent is woken and told number and status in four cases, spelled out, and in no other; nobody else changes |
| `Scheduler.Processes.WaitPid` | kernel2/procm.c:491-508 | a status at once, an error, or sleep, with the whole state after each |
| `Waiting.Until` | kernel2/procm.c:256-299 | timer ticks reach every runnable process |
| `Waiting.WaitMeetsExit` | kernel2/procm.c:491-538 | after proc_waitpid of the parent and proc_exit of a child the parent runs, with the number and status of the child, exactly in the four cases |
| `KernelExamples.SleepAfterExit` | kernel2/procm.c:177-185 | created, run, exited and put to sleep: the lists are wrong afterwards |

## Left out

- HuftMain.BuildTables: `malloc` does not fail, so result 3 and the links for `huft_free` are not modelled; tables are numbered instead of addressed.
- FlushBlock.Encoder.Flush: `opt_len`, `static_len` and `compressed_len` are unbounded, so files whose compressed size wraps 32 bits are counted without wrap-around; the branch that turns a whole file into a stored one is not there because `seekable()` is 0 (`apps/gzip/gzip.h:216`).
- GzipFile.Zip: the file as a sequence of bytes, without output buffering; the check value is computed over all data at once, which `Crc.UpdatePieces` allows.
- GzipFile.Unzip: works on positions in the file; that `inflate` gives back at most one byte, so that a refill of the input buffer is never undone, is not modelled.
- Members.Gunzip: copying input that is not compressed (`-f` with `-c`) ends the loop here; what is then copied is not modelled.
- GzipHeader.GetMethod: the messages, the exit code and the name of the output file are not modelled; a name that is kept is a result.
- Allocator.Heap.GetFree: the source asks for pages without end; here the supply is any finite sequence, and its end is a result. Pages do not overlap memory given before, and memory ends below 2^32 and begins above the first header.
- Allocator.Heap.Free: only for blocks in use, as the source demands; it has no check for a null pointer or a second free.
- Scheduler.Processes.Schedule: registers, address spaces and the halted processor are not modelled; idling and shutting down are results.
- Scheduler.Processes.Create: processes are known by their number, which does not wrap; name, users and children are not modelled.
- BitIO.BitWriter.SendBits: `put_short` and `put_byte` append to the file; the output buffer and its flushing are not modelled.
- `_malloc_checkforfree` and `realloc` (`kernel2/malloc.c:147-241`): unfinished in the source, without a contract to prove.
- `proc_destroy` (`kernel2/procm.c:124-138`): leaves the current process dangling when it destroys itself.
- `set_file_type`, end-of-line translation, assembler and unaligned variants, debug traces: they do not change the stream.
- Option parsing, file names, signals and the other formats of `gzip.c`.
- Semaphores, messages, remote calls, file systems and drivers of the operating system.
- In-place updates of the arrays of `trees.c`, `inflate.c` and `deflate.c`, other than the output window, are sequences passed and returned: aliasing between them is not captured. `Freq` and `Code`, and `Dad` and `Len`, share a sequence each, as they share a field in the source.
