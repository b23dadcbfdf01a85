# Verification of gzip and of parts of dash in klibc

A Dafny model of the gzip compressor and decompressor in `usr/gzip`, and of four
components of the shell in `usr/dash`: the arithmetic evaluator, the local variables,
the command table and the stack allocator. The code is modelled in its own form:
objects and arrays that are changed in place, the loops it has, its tables, its
integer widths where they matter. `dafny verify dfyconfig.toml` checks everything.

The main results:

- **Round trip** (`Gzip.RoundTrip`). For every byte sequence, every level from 1 to 9,
  every pattern of short reads, every content of unset memory and every data after the
  file, `unzip` of what `zip` wrote gives the sequence back, stops just past the
  trailer, and accepts checksum and length. It is put together from an encoder proved
  to emit a stream that *encodes* its input (`Deflate.Deflater.Deflate`), a lemma that
  such a stream decodes to it (`BlockLists.EncodesDecode`), and a decoder proved to agree
  with an independent bit-by-bit decoder of RFC 1951 (`InflateBlocks.Inflate`).
- **Optimality** (`Trees.BuildTree`). Whenever no node has to be cut off at the maximal
  length, the code lengths that `build_tree` assigns are cheapest among all prefix codes.
  That is so if no code is of the maximal length, and if the frequencies add up to less
  than a Fibonacci number. The repair of too long codes (`BitLengths.GenBitlen`) always
  ends in a complete code.
- **Exact sizes** (`Coder.Encoder.FlushBlock`). The predicted size of every block is the
  number of bits sent.
- **Hash chains** (`Matching.Matcher`, `Longest.LongestMatch`). Matches are real although
  the third byte is not compared, over slides of the window and reuse of `prev[]`. The
  best one within reach is taken, at once or unless the next is longer
  (`Deflate.Deflater.FastStep`, `Deflate.Deflater.LazyStep`).
- **Format** (`Wire.StoredFile`, `Wire.FixedBytes`, `Wire.DynamicHeader`). The reference
  decoder, and the program with it, reads the bits and bytes that RFC 1951 writes down:
  block types, fixed codes, lengths, distances and code lengths are stated in literals.
- **Arithmetic** (`Arith.Evaluator.Run`). One-pass evaluation by precedence climbing and
  right recursion is parsing by a stratified left-associative grammar followed by
  evaluation with short circuits. The parser reads exactly the texts of the C grammar
  (`ArithGrammar.ReadsExactly`), every expression can be written so that it is read back
  (`ArithShow.ReadsBack`), and each operator computes what C says on 64-bit integers
  (`ArithLaws.BinaryOp`).
- **Local variables** (`Vars.Variables.PopLocalVars`, `Vars.Variables.Call`). Frames bring
  back what their variables were; no text is freed twice or while it can be reached, and
  each that is not freed has an owner, but for the exact losses of a failed `local`.
- **Command table** (`Exec.Commands.FindCommand`). What the table serves is what a fresh
  search would find.
- **Stack allocator** (`StackAlloc.Stack.PopStackMark`). Marks bring back their state,
  live storage is disjoint, no block leaks.

## Findings

Where the code and its comments or the properties one expects differ, the model follows
the code.

- `huft_build` returns 0 and a null table for a set of only zero lengths, although its
  comment promises 2 for it (`usr/gzip/inflate.c:275-279`). For the bit
  length code, or for the code of a block that uses it, the decoder then reads through
  the null pointer. `InflateBlocks.Inflate` reports it as `FAULT`. It happens in every
  stream with `NullStream(s, out, 16)`, where 16 bits are left at that point, and only in
  streams with `NullStream(s, out, 0)` or `OddStream`, all of which the reference decoder
  refuses. `Refusals.NullStreams` gives such streams, and `Refusals.NullFile` says that
  the program faults on every input that starts with the bytes 5, 0, 0, 0.
- For a set with a single code of one bit among several symbols, `huft_build` compares the
  value pointer with `v + n` (`usr/gzip/inflate.c:425`), so the unused pattern is filled
  from memory that was never set. `HuftBuild.Build` says what the entry is, in terms of
  that memory. A stream that the reference decoder refuses is accepted only if it is an
  `InflateBlocks.OddStream`. `Refusals.OddStreams` gives such streams, and
  `Refusals.StraySymbol` says that the symbol decoded in them is what memory held.
- The test `if (j < z)` that guards the sizes of sub-tables in other versions of
  `huft_build` is missing. The tables are right if there are fewer than 2^l values or no
  code is longer than 2l, which all callers meet; this is the predicate `RoomyLens`.
  Without it a sub-table may get more than l bits: `HuftTables.TableBits` says when, and
  `Refusals.WideTable` shows it for the lengths 1, 2, 3, 3 in tables of one bit.
- At the end of its input `inflate` needs as many bits as the widest look-up, so a stream
  followed by fewer than 16 bits may be refused: `Refusals.EndRefused` is a block whose
  last bit ends the input. A gzip file has eight more bytes.
- `unzip` compares the length with `(ulg)bytes_out` (`usr/gzip/unzip.c:72`), which is
  wider than 32 bits on many machines, while the trailer holds 32 bits. `Gzip.RoundTrip`
  states exactly when the test succeeds; it does for every input below 2^32 bytes.
- The `memcpy` of `inflate_codes` overlaps for some distances above 32768 - 258
  (`Window.Overlap`); the compressor never uses one of these (`Window.Disjoint`).
- After a slide of the window `match_start` may be negative, which wraps around; the
  distance computed from it is still right (`Matching.Matcher.Slide`).
- `longest_match` reads up to 258 bytes past the end of the input; those bytes are
  arbitrary in the model, and the result does not depend on them.
- A forced code in `build_tree` can be 2 as well as the 0 and 1 of the comment
  (`usr/gzip/trees.c:640-644`); `TreeBuild.Force` says which it is.
- `poplocalvars` leaves a variable that was new in its frame behind as an exported one
  without a value if `set -a` is on: `Vars.BackExactly` says that a variable is as before
  if and only if it existed or `set -a` is off.
- `local x=1` of a read-only variable leaves `mklocal` before the record is linked. The
  variable keeps its value, marked as one whose text is not to be freed, and its text is
  lost exactly if it was owned (`Vars.Variables.MkLocal`).
- A comment in `usr/dash/machdep.h:49-52` fears that `grabstackstr` may move the string
  because of alignment. It does not: `StackAlloc.Stack.GrabStackStr`.

## Model

| member | source | states |
|---|---|---|
| `Gzip.RoundTrip` | usr/gzip/unzip.c:30-77 | for every text, level 1 to 9, read pattern, header, following data, old window and width of a long of at least 32 bits: unzip of zip's file outputs the text, leaves exactly the following data, and its verdict is OK if and only if the length is the same modulo 2^32 and modulo the width, in particular for every text below 2^32 bytes |
| `Gzip.Zip` | usr/gzip/zip.c:26-88 | succeeds for the levels 1 to 9 only; the file is the header, a stream that encodes the text, padding to a byte, and the CRC-32 and length of the text, lowest byte first; the header is 1f 8b 08, the flag of a name, the time stamp, 4 for level 1 and 2 for level 9, the system code 3 and the name with a zero byte |
| `Gzip.Unzip` | usr/gzip/unzip.c:30-77 | if the reference decoder accepts the stream and eight bytes follow, the output is what it decodes, the input is consumed to the end of the trailer, and the outcome is OK if and only if checksum and length are right, a CRC error if and only if the checksum is wrong, a length error if and only if only the length is; if fewer follow, the end is unexpected; a refused stream is reported unless it is odd |
| `Gzip.Validate` | usr/gzip/unzip.c:65-74 | OK exactly if the trailer holds the CRC-32 of the output and its length as an unsigned long, a CRC error exactly if the former is wrong |
| `Gzip.GetTrailer` | usr/gzip/unzip.c:62-64 | reads exactly the eight bytes after the stream, or reports the end of input |
| `Gzip.ZipDecodes` | usr/gzip/zip.c:40-83 | any file of the form zip writes, whatever follows it, decodes from the end of its header to the text and ends at its trailer |
| `Gzip.TrailerVerdict` | usr/gzip/unzip.c:65-74 | the checksum in the trailer of a text is right, and the length if and only if the two lengths agree modulo the word width |
| `Deflate.Deflater.Deflate` | usr/gzip/deflate.c:657-759 | consumes the whole input and appends a stream that encodes it, padded to a byte; the length returned is that of what was sent |
| `Deflate.Deflater.DeflateFast` | usr/gzip/deflate.c:576-650 | the same without lazy matching |
| `Deflate.Deflater.DeflateLazy` | usr/gzip/deflate.c:670-758 | the same with lazy matching |
| `Deflate.Deflater.FastStep` | usr/gzip/deflate.c:583-648 | one token is tallied: the longest match within reach of the search, cut at the end of the input, if it has three bytes, and a literal otherwise; the tokens so far expand to the input up to strstart; progress is made |
| `Deflate.Deflater.LazyStep` | usr/gzip/deflate.c:671-755 | the match held back is tallied exactly when the best one at strstart, cut at the end of the input and not of three bytes from too far away, is no longer; otherwise the literal before it, if one waits; a match held back is still a match after the window has slid; the tokens so far expand to the input up to strstart, or to one byte less while a literal waits |
| `Deflate.Deflater.TakePrevious` | usr/gzip/deflate.c:703-726 | the match of the step before is emitted with the right distance, and its strings are inserted |
| `Deflate.Deflater.TallyMatch` | usr/gzip/deflate.c:601-606 | a match that is byte for byte equal extends the expansion of the tokens by its length |
| `Deflate.Deflater.BlockData` | usr/gzip/deflate.c:566-568 | a buffer that is passed on is exactly the input of the tokens since the last flush, and at most 65534 bytes |
| `Deflate.Deflater.FlushBlock` | usr/gzip/deflate.c:566-568 | ends the block at strstart and keeps the expansion |
| `Deflate.Deflater.LmInit` | usr/gzip/deflate.c:285-338 | rejects other levels than 1 to 9; otherwise all invariants hold and no input is lost |
| `Deflate.Deflater.Wind` | usr/gzip/deflate.c:639-646 | refills the look-ahead to MIN_LOOKAHEAD or the end of file over slides of the window, with the distance to the match and the position in the input unchanged |
| `Matching.Matcher.InsertString` | usr/gzip/deflate.c:277-280 | the string at strstart becomes part of its chain; the old head returned is a string with the same hash |
| `Matching.Matcher.FillWindow` | usr/gzip/deflate.c:512-560 | the window keeps being the tail of the input; chains, hash, position and distance survive a slide; at least two bytes are free to be read into; more input or end of file |
| `Matching.Matcher.Slide` | usr/gzip/deflate.c:532-549 | after moving the window down all chain entries still lead to strings of the same hash |
| `Matching.Matcher.Refill` | usr/gzip/deflate.c:641-646 | looking ahead by MIN_LOOKAHEAD bytes unless the input has ended |
| `Matching.Matcher.Search` | usr/gzip/deflate.c:592-600 | the result of the search is equal byte for byte and the longest among the chain entries that patience allows |
| `Matching.Source.FileRead` | usr/gzip/zip.c:96-110 | hands over a prefix of what is left, of any size the system chooses; the checksum and the length stay those of all input read |
| `Longest.LongestMatch` | usr/gzip/deflate.c:353-476 | a match longer than prev_length is equal byte for byte and starts at match_start; no string inserted from lo on matches further, and lo is the reach of the chain limit, of the distance limit, or the search stopped at nice_match |
| `Longest.TryMatch` | usr/gzip/deflate.c:433-471 | a candidate of the same hash replaces the best match exactly if it is longer, although its third byte is not compared |
| `Longest.Compare` | usr/gzip/deflate.c:444-457 | the number of equal bytes, at most 258 |
| `Coder.Encoder.FlushBlock` | usr/gzip/trees.c:853-952 | sends the smallest of the three kinds by their size in bytes, exactly its bits; compressed_len is the number of bits sent, before and after padding; the counters start afresh |
| `Coder.ChoiceBound` | usr/gzip/trees.c:881-939 | the block sent is at most 7 bits longer than any of the three kinds, 17 bits if it is stored |
| `Coder.Encoder.Tally` | usr/gzip/trees.c:958-1006 | the buffers hold the tokens, the frequencies are theirs, and the flush test is the one of the code |
| `Coder.Encoder.InitBlock` | usr/gzip/trees.c:407-420 | an empty block |
| `Coder.Encoder.Finish` | usr/gzip/trees.c:943-951 | padding at the end of file; the length is the exact number of bytes |
| `Coder.Encoder.SendStored` | usr/gzip/trees.c:911-924 | a stored block and its exact size |
| `Coder.Encoder.SendDynamic` | usr/gzip/trees.c:934-939 | a dynamic block and its exact size |
| `Coder.Encoder.SendStatic` | usr/gzip/trees.c:929-933 | a static block and its exact size |
| `Output.Emitter.Finish` | usr/gzip/trees.c:853-952 | all blocks and the last one encode the whole text |
| `Output.Emitter.Flush` | usr/gzip/trees.c:853-952 | the blocks so far encode the text so far |
| `BlockTrees.BuildAll` | usr/gzip/trees.c:866-879 | three trees with complete codes for the tokens; opt_len and static_len are the sizes in bits of the block with its header and of the static block |
| `BlockSend.CompressBlock` | usr/gzip/trees.c:1011-1055 | sends exactly the codes and extra bits of the tokens in the buffers, and the end of block |
| `BlockSend.SendLength` | usr/gzip/trees.c:1031-1038 | the code and extra bits of a length |
| `BlockSend.SendDistance` | usr/gzip/trees.c:1039-1049 | the code and extra bits of a distance |
| `TokenBuffer.Buffers.Add` | usr/gzip/trees.c:962-985 | the buffers of bytes, distances and flag bits hold one token more |
| `Frequencies.Count` | usr/gzip/trees.c:963-978 | the frequencies of one token more, and no 16-bit counter wraps |
| `CodeTables.LengthCodes` | usr/gzip/trees.c:348-361 | the table of length codes is that of section 3.2.5 of RFC 1951 |
| `CodeTables.DistCodes` | usr/gzip/trees.c:363-379 | likewise for distances, through the two halves of dist_code |
| `CodeTables.StaticTrees` | usr/gzip/trees.c:381-398 | the static trees hold the fixed codes of section 3.2.6 of RFC 1951 |
| `Trees.BuildTree` | usr/gzip/trees.c:609-688 | a complete code of at most max_length bits with canonical codes for all used symbols and at least two; opt_len and static_len grow by the exact costs; if the overflow of the depths cut off at max_length is 0, no prefix code is cheaper; in particular if all lengths are below max_length, or the frequencies add up to less than Fib(max_length + 3) |
| `Trees.Attained` | usr/gzip/trees.c:681-687 | the codes stored are themselves a prefix code of these lengths, so the minimum is attained |
| `Trees.Cheapest` | usr/gzip/trees.c:653-677 | lengths of the cost Huffman's algorithm finds are no dearer than any prefix code |
| `Trees.RarerNoShorter` | usr/gzip/trees.c:540-557 | after a repair, of two symbols the rarer one has no shorter code |
| `Depth.LightTree` | usr/gzip/trees.c:501-522 | in a tree whose nodes are merged in order of weight, no leaf is deeper than max_length if the root weighs less than Fib(max_length + 3) |
| `BitLengths.GenBitlen` | usr/gzip/trees.c:483-558 | the lengths are at most max_length, their Kraft sum is 1, every leaf has one, opt_len is exact; the overflow is even and twice the excess of the first pass; nothing changes if it is 0, and if not, some leaf has max_length bits |
| `BitLengths.FirstPass` | usr/gzip/trees.c:499-522 | depths cut off at max_length, counted, with the overflow |
| `BitLengths.Repair` | usr/gzip/trees.c:527-538 | the search for a leaf to move down always succeeds, each time the deepest level above the last one with a leaf loses one, half as many times as nodes overflow, and the Kraft sum becomes 1 |
| `BitLengths.SecondPass` | usr/gzip/trees.c:540-557 | the lengths handed out are counted by bl_count, and a leaf merged later has no longer a code |
| `TreeBuild.MakeTree` | usr/gzip/trees.c:619-679 | a tree over the used symbols, merged in order of weight, of the least cost |
| `TreeBuild.Collect` | usr/gzip/trees.c:623-632 | the heap holds the used symbols |
| `TreeBuild.Force` | usr/gzip/trees.c:634-646 | at least two symbols are used; those forced are below 3, and if one symbol was in use the one forced is the next, if that is at most 2, or else 0; their costs are taken off opt_len and static_len |
| `TreeBuild.Heapify` | usr/gzip/trees.c:651 | a heap of the same nodes |
| `TreeMerge.Round` | usr/gzip/trees.c:656-677 | one merge of the two lightest nodes keeps the cost that of Huffman's algorithm, the order of removal, and 16-bit sums exact |
| `TreeMerge.PqRemove` | usr/gzip/trees.c:430-435 | takes the least node and leaves a heap of the others |
| `PrioQueue.DownHeap` | usr/gzip/trees.c:451-471 | the heap order holds from k on if it held after k, over the same nodes |
| `TreeCodes.GenCodes` | usr/gzip/trees.c:568-599 | the code stored for a symbol, read from its low bit, is the canonical code of section 3.2.2 of RFC 1951 |
| `TreeCodes.BiReverse` | usr/gzip/bits.c:147-157 | the code whose bits are those of the argument in reverse |
| `CodeRuns.ScanTree` | usr/gzip/trees.c:696-734 | counts exactly the run-length codes of the lengths, and sets the guard |
| `CodeRuns.SendTree` | usr/gzip/trees.c:740-784 | sends exactly the run-length codes that were counted |
| `CodeRuns.RleTwo` | usr/gzip/trees.c:823-846 | the codes of the two sets of lengths, run one after the other with a carried last length, give both sets back; every repeat count fits its field |
| `BlTree.BuildBlTree` | usr/gzip/trees.c:790-816 | a code for the run-length codes; opt_len grows by the exact size of the header; at least four lengths are sent |
| `BlTree.SendAllTrees` | usr/gzip/trees.c:823-846 | sends exactly the header |
| `Canonical.DecodeCode` | usr/gzip/inflate.c:511-520 | bit-by-bit decoding of a canonical code word, whatever follows, gives its symbol and length |
| `Canonical.PrefixFree` | usr/gzip/trees.c:568-599 | no canonical code word begins another |
| `Stream.StreamRoundTrip` | usr/gzip/inflate.c:909-950 | the reference decoder gives back the bytes of any blocks written one after the other, and leaves what follows |
| `Wire.StoredBytes` | usr/gzip/inflate.c:595-644 | the byte 1, the length, its complement and the data are a last stored block, for all data below 65536 bytes and all that follows |
| `Wire.StoredFile` | usr/gzip/inflate.c:897-898 | inflate on such bytes outputs the data and stops behind them, if two bytes follow |
| `Wire.StoredRefused` | usr/gzip/inflate.c:615-621 | a length whose complement is wrong is refused by the reference decoder, whatever follows |
| `Wire.BadFile` | usr/gzip/inflate.c:615-621 | inflate fails on such bytes |
| `Wire.FixedCodes` | usr/gzip/inflate.c:662-671 | the fixed code of every symbol, in bits |
| `Wire.FixedBytes` | usr/gzip/inflate.c:899-900 | the bits 1, 1, 0, the fixed codes of any bytes and seven zeros are a last block that decodes to these bytes |
| `Wire.FixedFile` | usr/gzip/inflate.c:899-900 | inflate on the bytes 4b 04 00 outputs the byte 97 |
| `Wire.FixedMatch` | usr/gzip/inflate.c:533-579 | a length and a distance code with their extra bits copy as many bytes from as far back, or are refused before the start of the output |
| `Wire.CopyIs` | usr/gzip/inflate.c:554-579 | each byte of a copy is the one that far before it, and nothing before changes |
| `Wire.FixedUnused` | usr/gzip/inflate.c:662-687 | the fixed codes 286 and 287, and the distance codes 30 and 31, are refused |
| `Wire.LengthTable` | usr/gzip/inflate.c:154-160 | least length and extra bits of a length code, as a formula of the code |
| `Wire.DistanceTable` | usr/gzip/inflate.c:161-168 | least distance and extra bits of a distance code, likewise |
| `Wire.DynamicOpens` | usr/gzip/inflate.c:895-904 | the bits 1, 0, 1 start a last dynamic block, and 1, 1, 1 are refused |
| `Wire.DynamicHeader` | usr/gzip/inflate.c:729-756 | the numbers of codes and the code lengths in the order 16, 17, 18, 0, 8, 7 and so on, for all sets |
| `Wire.HeaderLimits` | usr/gzip/inflate.c:741-745 | more than 286 or 30 codes are refused |
| `Wire.LengthSymbols` | usr/gzip/inflate.c:776-811 | what each of the 19 symbols adds to the code lengths, and that running over is refused |
| `BlockLists.EncodesDecode` | usr/gzip/inflate.c:909-950 | a stream that encodes a text decodes to it after any earlier output, and leaves what follows |
| `InflateBlocks.Inflate` | usr/gzip/inflate.c:909-950 | success means that the reference decoder accepts the stream, with the same output and the input left just past it, or that the stream is odd; an error means that it refuses or that fewer than 16 bits follow; a null pointer is read in every null stream with 16 bits left at that point, and only in null or odd streams, all of which it refuses; the checksum is that of the output |
| `InflateBlocks.InflateBlock` | usr/gzip/inflate.c:863-905 | the same for one block, by its type bits; a null pointer is read in every null block with 16 bits left there, and only in null or odd blocks |
| `InflateBlocks.InflateDynamic` | usr/gzip/inflate.c:699-859 | the same for a dynamic block; a null pointer is read if the bit length code has no codes, or if the data need a code that has none and 16 bits are left, and otherwise only in odd blocks |
| `InflateBlocks.ReadLengthSets` | usr/gzip/inflate.c:746-811 | the lengths read in one pass with a carried last length are the two sets of the reference decoder, and are refused when they overrun |
| `InflateBlocks.InflateStored` | usr/gzip/inflate.c:595-644 | the same for a stored block, with the complement checked |
| `InflateBlocks.InflateFixed` | usr/gzip/inflate.c:648-695 | the same for a static block |
| `InflateData.InflateCodes` | usr/gzip/inflate.c:486-591 | decodes literals and matches as the reference decoder does |
| `InflateData.ReadSym` | usr/gzip/inflate.c:511-520 | reads the entry that walking the tables leads to, and as many bits as it says |
| `HuftBuild.Build` | usr/gzip/inflate.c:267-461 | returns 2 exactly for oversubscribed sets, 0 exactly for complete ones, empty ones and single codes of one bit; otherwise the tables decode every code word of the set, refuse everything else for regular sets, and have the entry made of unset memory for stray ones; the bits of the first table are within the lengths |
| `HuftBuild.WalkIsLookup` | usr/gzip/inflate.c:511-520 | for every bit string, walking the tables gives the symbol and the number of bits of bit-by-bit canonical decoding |
| `HuftTables.BuildTables` | usr/gzip/inflate.c:361-456 | the multi-level tables hold every code of the set, in order |
| `HuftBuild.SortValues` | usr/gzip/inflate.c:353-358 | the values by length and number |
| `Inverse.CodesInverted` | usr/gzip/trees.c:568-599 | walking the decoder's tables along a code stored by gen_codes leads to its symbol |
| `HuftTables.TableBits` | usr/gzip/inflate.c:383-396 | the bits of a sub-table: at least k - w; if below l, the codes up to its size fill it; at most l if k - w is below l, or is l and no code is longer; but k - w + 1 if k - w has reached l and too few codes of k bits are left |
| `Refusals.NullStreams` | usr/gzip/inflate.c:311-316 | a dynamic block with an all-zero bit length code, whatever follows, is refused by the reference decoder and null |
| `Refusals.NullFile` | usr/gzip/inflate.c:758-774 | inflate reads through a null pointer on every input that starts with such a block |
| `Refusals.OddStreams` | usr/gzip/inflate.c:423-442 | a dynamic block with a bit length code of one code, and its unused pattern next, is refused by the reference decoder and odd |
| `Refusals.StraySymbol` | usr/gzip/inflate.c:423-442 | huft_build accepts that bit length code, and the unused pattern gives the symbol that memory held |
| `Refusals.WideTable` | usr/gzip/inflate.c:383-396 | for the lengths 1, 2, 3, 3 and l = 1 the first sub-table gets two bits |
| `Refusals.EndRefused` | usr/gzip/inflate.c:511 | a block whose end-of-block code is the last bit of the input is refused, although the reference decoder accepts it |
| `Window.Slide.Copy` | usr/gzip/inflate.c:554-579 | for every length, every distance from 1 to WSIZE and every position in the window the output grows by exactly the byte-at-a-time copy |
| `Window.Slide.CopyChunk` | usr/gzip/inflate.c:561-573 | the same for one chunk, by memcpy or bytewise |
| `Window.Slide.Flush` | usr/gzip/util.c:123-133 | the bytes of the window are written, and checksum and count are those of all bytes written |
| `Window.Disjoint` | usr/gzip/inflate.c:560-567 | exactly when the two ranges of a memcpy are disjoint, and that they are for distances up to MAX_DIST |
| `Window.Overlap` | usr/gzip/inflate.c:560-567 | at distance WSIZE - 1 they can overlap |
| `BitIO.BitWriter.SendBits` | usr/gzip/bits.c:118-140 | the bits of the value, lowest first, are appended to those sent, over both branches of the 16-bit buffer |
| `BitIO.BitWriter.BiWindup` | usr/gzip/bits.c:162-174 | zeros up to a byte boundary; all bits sent are in the bytes output |
| `BitIO.BitWriter.CopyBlock` | usr/gzip/bits.c:180-200 | padding, the length, its complement and the bytes |
| `BitIO.BitWriter.PutByte` | usr/gzip/gzip.h:194-195 | one byte more, through the output buffer |
| `BitIO.BitWriter.PutLong` | usr/gzip/gzip.h:211-214 | the low 32 bits as four bytes, the lowest first |
| `BitIO.BitReader.NeedBits` | usr/gzip/inflate.c:218 | the unread bits are kept; succeeds exactly if n bits are left, with fewer than n + 8 buffered if any were read |
| `BitIO.BitReader.DumpBits` | usr/gzip/inflate.c:219 | n bits of the unread ones are dropped |
| `BitIO.BitReader.GiveBack` | usr/gzip/inflate.c:933-939 | the input pointer is at the first byte with no bit read |
| `ReadBack.WriteRead` | usr/gzip/bits.c:118-174 | any values of up to 16 bits written one after the other and wound up are read back unchanged with the same lengths |
| `Crc.Checksum.Update` | usr/gzip/util.c:50-68 | over any split into chunks the register is that of the bitwise CRC-32 of section 8 of RFC 1952, through the table of 256 words |
| `Crc.Checksum.Clear` | usr/gzip/util.c:56-60 | the checksum of nothing |
| `Crc.CheckValue` | usr/gzip/util.c:50-68 | the checksum of the digits 1 to 9 is cbf43926 |
| `Arith.Evaluator.Run` | usr/dash/arith_yacc.c:301-313 | parses by the stratified left-associative grammar and evaluates with short circuit: the same value and variables, the same failure with the variables assigned before it, and failure for every text the grammar refuses |
| `Arith.Evaluator.Assignment` | usr/dash/arith_yacc.c:280-299 | an assignment or a conditional of the grammar, evaluated or, under noeval, parsed only: then no variable changes and nothing fails |
| `Arith.Evaluator.Cond` | usr/dash/arith_yacc.c:258-278 | likewise for a conditional, of which one branch is evaluated |
| `Arith.Evaluator.Or` | usr/dash/arith_yacc.c:241-256 | likewise for a disjunction |
| `Arith.Evaluator.And` | usr/dash/arith_yacc.c:224-239 | likewise for a conjunction |
| `Arith.Evaluator.Binop` | usr/dash/arith_yacc.c:213-222 | likewise for the levels of binary operators |
| `Arith.Evaluator.Binop2` | usr/dash/arith_yacc.c:183-211 | precedence climbing from an operand already evaluated |
| `Arith.Evaluator.Primary` | usr/dash/arith_yacc.c:146-181 | likewise for operands, unary operators and parentheses |
| `ArithClimb.ClimbIsUp` | usr/dash/arith_yacc.c:183-211 | the tree that precedence climbing builds is the one of the stratified grammar, for all operators and token sequences |
| `ArithClimb.LevelUp` | usr/dash/arith_yacc.c:213-222 | a level of the grammar is a primary followed by climbing through the levels |
| `ArithSyntax.AndRecursion` | usr/dash/arith_yacc.c:224-239 | parsing an operand, and && before all the rest by right recursion, succeeds when the left-associative grammar does, with the same rest and a tree of the same meaning in every environment |
| `ArithSyntax.OrRecursion` | usr/dash/arith_yacc.c:241-256 | likewise for disjunction |
| `ArithGrammar.ReadsExactly` | usr/dash/arith_yacc.c:146-313 | for every token sequence and expression: the parser reads the sequence as the expression if and only if it is a text of it in the C grammar |
| `ArithShow.ReadsBack` | usr/dash/arith_yacc.c:57-76 | every expression, written with the fewest parentheses that precedence and associativity in C require, is read as itself |
| `ArithLaws.BinaryOp` | usr/dash/arith_yacc.c:97-142 | for all 64-bit a and b the evaluator on a op b: sums, differences and products modulo 2^64, truncated quotients and remainders, shifts as products and quotients by powers of two, comparisons, bitwise operators bit by bit; it fails exactly for division by zero, and the one quotient that overflows is named |
| `ArithLaws.UnaryOp` | usr/dash/arith_yacc.c:164-177 | the same for plus, minus, not and complement |
| `ArithLaws.AssignOp` | usr/dash/arith_yacc.c:292-298 | x = v sets x to v; x op= v has the value of x op v for the operator of the same name, and sets x to it |
| `ArithLaws.Variable` | usr/dash/arith_yacc.c:161-163 | a variable has its value, or 0 |
| `ArithLaws.AndOp` | usr/dash/arith_yacc.c:224-239 | a && (x = v) sets x only if a is not 0, and is 0 or 1 |
| `ArithLaws.OrOp` | usr/dash/arith_yacc.c:241-256 | likewise for || |
| `ArithLaws.CondOp` | usr/dash/arith_yacc.c:258-278 | c ? x = v : (y = w) sets one of the two and has its value |
| `ArithLaws.LeftFirst` | usr/dash/arith_yacc.c:183-211 | in (x = v) - x the left operand is evaluated first |
| `ArithLaws.InRange` | usr/dash/arith_yacc.c:97-142 | from 64-bit numbers and variables no value ever leaves the 64-bit range |
| `Vars.Variables.PopLocalVars` | usr/dash/var.c:528-580 | without keep every variable made local in the frame is what it was when it first was, value and flags, and is gone if it was new and set -a is off; with keep its value and flags stay; other variables are unchanged; ownership of texts stays sound |
| `Vars.Variables.UnwindLocalVars` | usr/dash/var.c:601-605 | each variable is what the outermost of the popped frames remembers |
| `Vars.Variables.Call` | usr/dash/eval.c:977-979 | after a function with any body, nested calls included, every variable the body makes local before it sets it is as before, but that under set -a one that did not exist may be left exported without a value |
| `Vars.Variables.MkLocal` | usr/dash/var.c:483-520 | remembers the variable in the innermost frame, once; sets it if a value is given and otherwise keeps value and flags; fails exactly for an assignment to a read-only variable, which then is marked and keeps its value, with no record and its text lost if it was owned; nothing else changes |
| `Vars.Variables.Save` | usr/dash/var.c:508-514 | the same for a variable that exists |
| `Vars.Variables.Command` | usr/dash/var.c:153-155 | after an error in nested calls the unfinished frames are unwound, and the invariants hold for the next command |
| `Vars.Variables.PushLocalVars` | usr/dash/var.c:586-598 | an empty frame, and nothing else changes |
| `Vars.Variables.SetVarEq` | usr/dash/var.c:247-304 | the new table: the variable has the value and flags of the call, stays exported and fixed if it was, and is gone exactly if nothing but unset is left; every other is unchanged; the text given or a copy is in it; fails exactly for read-only variables; an owned text that is replaced is freed, and the one handed over is kept or freed, so that every live text has an owner |
| `Vars.Variables.SetVar` | usr/dash/var.c:190-220 | the same with a text made for the purpose |
| `Vars.Variables.UnsetVar` | usr/dash/var.c:641-644 | no value is left, nothing else changes, and the variable stays exactly under set -a or if it is fixed; after an error nothing at all changes |
| `Vars.BackExactly` | usr/dash/var.c:566-568 | a variable is restored if and only if it existed or set -a is off |
| `Vars.KeptValue` | usr/dash/var.c:546-561 | keep never changes a value |
| `VarTable.Restored` | usr/dash/var.c:569-576 | restoring a saved variable frees only a text that nothing else holds |
| `VarTable.Saved` | usr/dash/var.c:508-513 | a record takes over the text of the variable |
| `VarTable.TakenBack` | usr/dash/var.c:549-557 | with keep the variable takes its text back from the record |
| `VarTable.DroppedSaved` | usr/dash/var.c:552-553 | a saved text is freed only if the variable has another |
| `Exec.Commands.FindCommand` | usr/dash/exec.c:285-463 | for every name, with or without functions, on the shell's PATH or another: the answer, from the table or not, is the function, else the built-in command, else the first element of PATH under which the name is a regular file now, else unknown; names with a slash are not searched for; the table afterwards has exactly this answer for the name |
| `Exec.Commands.SearchPath` | usr/dash/exec.c:364-438 | the first element of PATH with the program, also when absolute elements before an old index are skipped |
| `Exec.Commands.ChangePath` | usr/dash/exec.c:517-553 | exactly the programs found from the first change on are removed, all other entries are kept; one that is kept has an index up to which the two PATHs are the same, and stays right |
| `Exec.Commands.ChangeDir` | usr/dash/exec.c:490-506 | exactly the programs are marked to be searched for again, and the table stays right |
| `Exec.Commands.HashR` | usr/dash/exec.c:233-236 | exactly the programs are removed |
| `Exec.Commands.Defun` | usr/dash/exec.c:692-702 | the function is defined, its entry is new, and the table stays right |
| `Exec.Commands.UnsetFunc` | usr/dash/exec.c:709-717 | the function is no longer defined, its entry is gone, and the table stays right |
| `PathSearch.FirstChange` | usr/dash/exec.c:525-546 | exactly the number of elements the two PATHs have in common at their start, or 9999 if they are equal |
| `PathSearch.SplitJoins` | usr/dash/exec.c:185-217 | the elements of a PATH have no colon and make it again when joined with colons |
| `PathSearch.Padvance` | usr/dash/exec.c:185-217 | the directory of the first element, a slash and the name, or the name alone for an empty one; whether it has an option; and the remaining elements |
| `CmdTable.Table.Lookup` | usr/dash/exec.c:601-629 | finds the entry of the name in its chain, or makes one |
| `CmdTable.Table.Clear` | usr/dash/exec.c:561-584 | removes exactly the entries from the first change on |
| `CmdTable.Table.Delete` | usr/dash/exec.c:635-647 | removes exactly the entry last looked up |
| `CmdTable.Table.HashCd` | usr/dash/exec.c:490-506 | marks exactly the programs |
| `StackAlloc.Stack.Stalloc` | usr/dash/memalloc.c:113-144 | aligned storage disjoint from all that is held, in place if it fits, in a new block of at least 504 bytes if not; marks stay valid |
| `StackAlloc.Stack.Stunalloc` | usr/dash/memalloc.c:147-158 | frees exactly what lies above |
| `StackAlloc.Stack.SetStackMark` | usr/dash/memalloc.c:162-173 | remembers the state and what is held, and keeps the block of the mark from being moved |
| `StackAlloc.Stack.PopStackMark` | usr/dash/memalloc.c:176-191 | brings back block, free space and what was held at the mark set last, and frees every block above, once |
| `StackAlloc.Stack.GrowStackBlock` | usr/dash/memalloc.c:204-242 | twice the free space, 128 more if that is below 128, and at least 504, with the same contents at its start; no mark and nothing held is affected |
| `StackAlloc.Stack.MakeStrSpace` | usr/dash/memalloc.c:274-290 | room for newlen more characters after the string, which is unchanged |
| `StackAlloc.Stack.PutC` | usr/dash/memalloc.h:70-75 | the string with one character more; no storage that is held changes |
| `StackAlloc.Stack.StnPuts` | usr/dash/memalloc.c:292-298 | the same for a string |
| `StackAlloc.Stack.GrabStackStr` | usr/dash/memalloc.h:96 | the string is allocated where it is |

## Left out

- Options, file names, the file system, and reading a header in gzip; `set_file_type`. The header in the model is any bytes.
- The variants of the code under ASMV, UNALIGNED_OK, CRYPT, PKZIP_BUG_WORKAROUND, FORCE_METHOD and DEBUG, and failure of memory allocation.
- Refilling the input buffer: input of the decoder is one byte sequence; reading past its end and the error it returns are one error code.
- The code returned for an error is modelled as "not OK" or "null pointer", without the number.
- The guess that ends blocks early in `ct_tally` is modelled as it is, but nothing is claimed about how good it is.
- InflateBlocks.Inflate: for null streams with fewer than 16 bits left at the fault it is not said whether the end of the input is noticed first; whether an odd stream is accepted depends on unset memory.
- Refusals.WideTable: what the decoder makes of a sub-table that is too wide is not stated; no caller of `huft_build` gets there.
- Counters of bits (`opt_len`, `static_len`, `compressed_len`) are unbounded; the 32-bit ones of a block cannot overflow.
- Reading numbers and names in dash arithmetic: tokens come with their values. Variables are a map from names to integers, unset ones being 0; results wrap to 64 bits, also that of the quotient of the least integer and -1, and shift counts are taken modulo 64.
- The message of an arithmetic error: failing is one outcome.
- In the table of variables: the chains (a map stands for them), callbacks, the options saved by `local -`, bad names, LINENO.
- In the command table: `%builtin` and `%func` elements of PATH, unsetting PATH, the error messages, and changes to files between two searches.
- In the stack allocator: running out of memory, marks set with a length of the caller's choice, marks that are popped twice. Strings given back are aligned, which holds for all that `stalloc` returned.
- The rest of dash (parsing, expansion, jobs, traps, redirection, history), kinit and the C library.
