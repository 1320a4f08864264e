# DEFLATE, its checksums and a fixed-size allocator, in Dafny

A model of the bundled zlib 1.2.3 (`server/modules/zlib/src`) and of MMgc's fixed-size allocator
(`server/tamarin-source/tamarin-central/MMgc`), with proofs of what they are for. `dafny verify dfyconfig.toml` checks
all of it.

**The specification.** `Machine` defines what inflate decodes as a step function over an abstract bit stream, with codes
given by their lengths and no buffers. `Canonical` defines canonical codes through the code space before each symbol,
`Tokens` the expansion of literals and matches, `Traces` and `Runs` what a run is. Everything the programs do is stated
against these definitions, which name none of the programs' loops or tables.

**Compression.** `Matcher` has the sliding window, the hash chains and the search for matches; `Picks` says what a search
finds and why a token is what it is; `Deflater` the greedy and the lazy compressor; `Encoder` and the modules below it the Huffman trees, their length limit, the run-length coded
headers and the choice of the block form; `Compressor` deflate() with its flush values and its output room. Positions are
relative to the window as in the source, so that a slide changes them; a ghost base ties them to the input, and
match_start may become negative.

**Decompression.** `InfTrees` builds the two-level tables; `BitSource`, `Window` and `Output` are the accumulator with its
input, the circular window and the output buffer; `Modes`, `DynamicModes` and `CodeModes` are the modes of inflate();
`InflateFast` is the unrolled decoder; `Inflater` puts them together as a resumable object.

**Together.** `Chunking` says that the way a stream is cut into calls does not matter. `EndToEnd` and `OneShot` join both
sides: whatever the compressor was given, in whatever calls, comes out of the decoder, in whatever calls, and nothing
after the stream is touched.

**Besides.** `Adler32` and `Crc32` have the checksums, each with its combination of two; `FixedItems` and `FixedAlloc` the
allocator, whose invariant holds in every run of Alloc, Free and writes by clients.

Where the source changes state, so does the model: classes hold the fields of deflate_state, inflate_state and the
allocator, arrays are updated in place, and each method is proved against a function or a predicate of its own.

## Model

| member | source | states |
|---|---|---|
| BitWriter.BitBuffer.SendBits | server/modules/zlib/src/trees.c:192-229 | The stream (pending bytes, then the bits of the 16-bit buffer) grows by exactly the low `length` bits of the value, least significant first, also when the buffer overflows into two pending bytes. |
| BitWriter.BitBuffer.BiFlush | server/modules/zlib/src/trees.c:1161-1173 | The stream is unchanged; fewer than eight bits stay in the buffer. |
| BitWriter.BitBuffer.BiWindup | server/modules/zlib/src/trees.c:1178-1191 | The stream is padded with zero bits to the next byte boundary, and all of it is pending. |
| BitWriter.BitBuffer.CopyBlock | server/modules/zlib/src/trees.c:1197-1219 | Appends padding, the length, its complement and the bytes of a stored block. |
| GenCodes.BiReverse | server/modules/zlib/src/trees.c:1146-1156 | The loop computes the independently defined bit reversal. |
| GenCodes.GenCodes | server/modules/zlib/src/trees.c:577-609 | Every symbol with a length gets its canonical code (section 3.2.2 of RFC 1951), bit-reversed; nothing else changes. The canonical code is defined through the sum of the code space before the symbol, not through next_code. |
| BlockWriter.MakeTables | server/modules/zlib/src/trees.c:238-290 | The length and distance code tables of tr_static_init: every length and every distance maps to the symbol whose base and extra bits cover it. |
| BlockWriter.StaticTrees | server/modules/zlib/src/trees.c:292-309 | The static trees hold the lengths of section 3.2.6 of RFC 1951 and their canonical codes. |
| Heap.PqDownHeap | server/modules/zlib/src/trees.c:455-478 | Restores the heap order from position k down, keeps the multiset of nodes in the heap, and touches nothing else. |
| BuildTree.InitHeap | server/modules/zlib/src/trees.c:634-643 | The heap holds exactly the symbols of non-zero frequency; the lengths of the others are zeroed; max_code is the greatest of them. |
| BuildTree.ForceCodes | server/modules/zlib/src/trees.c:650-656 | At least two symbols are coded; each forced one takes one bit off opt_len and its static length off static_len. |
| BuildTree.MergeTwo | server/modules/zlib/src/trees.c:667-690 | One round of the merge loop: the first two roots in the order of the heap, least frequent first and the lower subtree first among equals, become sons of a new node, the heap and the sorted list share the array without overlap, and the trace of merges stays greedy. |
| GenBitlen.FirstPass | server/modules/zlib/src/trees.c:507-529 | Lengths by depth, clipped to max_length; bl_count, the overflow count, opt_len and static_len are exactly the totals over the leaves. |
| Huffman.KraftClipped | server/modules/zlib/src/trees.c:514-523 | The Kraft sum of the clipped lengths exceeds one by exactly half the overflow count, in units of a code of max_length. |
| Repair.FixOverflow | server/modules/zlib/src/trees.c:535-546 | From any clipped tree with at most 2^max_length leaves the overflow loop ends, keeps the number of leaves and all counts non-negative, never exceeds max_length, and ends with a Kraft sum of exactly one; each round makes one of the longest leaves below max_length one bit longer. |
| Rescan.SecondPass | server/modules/zlib/src/trees.c:548-566 | The rescan gives each leaf a length so that the numbers of leaves per length are bl_count, never a longer one to a leaf that stands earlier in the list, and corrects opt_len by exactly the change in cost. |
| HuffTail.RarerDeeper | server/modules/zlib/src/trees.c:507-513 | In any greedy tree a less frequent node is at least as deep as a more frequent one, also when depths are clipped. |
| HuffTail.RarerLater | server/modules/zlib/src/trees.c:548-566 | A less frequent leaf stands later in the sorted list, so lengths that do not decrease along the list give it no shorter code. |
| BitLengths.GenLengths | server/modules/zlib/src/trees.c:490-567 | gen_bitlen as a whole: a complete set of lengths within max_length, the exact cost in opt_len and static_len, and the depths of the tree if nothing overflowed. |
| Huffman.LowerBound | server/modules/zlib/src/trees.c:664-692 | For any greedy merge trace, no assignment of lengths that fits a binary code costs less than the weights of the merged nodes. |
| Huffman.Optimal | server/modules/zlib/src/trees.c:664-692 | If no length exceeds max_length, no prefix-free code on the same symbols has a smaller total weighted length. |
| BuildTree.MakeTree | server/modules/zlib/src/trees.c:619-701 | build_tree: for all frequencies with a sum below 2^16 the lengths are complete and at most max_length, max_code is the last symbol with a length, the codes are canonical, opt_len and static_len grow by the exact cost, and without overflow the lengths are optimal over all prefix codes; with or without overflow a less frequent symbol has no shorter code. |
| RunLength.ScanTree | server/modules/zlib/src/trees.c:707-746 | Counts for every code length symbol exactly how often the run-length coding of the tree uses it, and sets the guard. |
| RunLength.SendTree | server/modules/zlib/src/trees.c:752-797 | Sends exactly the symbols and counts of that run-length coding with the bit length codes. |
| RunLength.AllSymsExpand | server/modules/zlib/src/trees.c:707-797 | Expanding the run-length symbols of any lengths gives the lengths back, whatever lengths came before; no repetition refers to nothing. |
| BlTree.BuildBlTree | server/modules/zlib/src/trees.c:803-831 | The bit length tree encodes the symbols of both trees; max_blindex is the last index in the order of the format with a length; opt_len grows by the exact header size. |
| BlockWriter.SendAllTrees | server/modules/zlib/src/trees.c:838-862 | Sends exactly the header bits of section 3.2.7 of RFC 1951 for the three trees. |
| BlockWriter.CompressBlock | server/modules/zlib/src/trees.c:1072-1118 | Sends exactly the codes and extra bits of the tallied tokens and then the end-of-block code. |
| BlockWriter.TrStoredBlock | server/modules/zlib/src/trees.c:867-879 | Sends exactly a stored block: type, padding, length, complement, bytes; the stream ends on a byte boundary. |
| BlockWriter.TrAlign | server/modules/zlib/src/trees.c:892-915 | Sends one empty static block, or two exactly if after one the lookahead for the last real code would be less than nine bits in whole bytes, and nothing else. |
| BlockWriter.MarkersSuffice | server/modules/zlib/src/trees.c:901-912 | With that number of empty blocks the lookahead for the last real code has at least nine bits, whatever the length of the last end-of-block code and the place in the stream. |
| DynamicTrees.HeaderRound | server/modules/zlib/src/trees.c:838-862 | Read by TABLE, LENLENS and CODELENS, the header of any three good trees gives back exactly the two sets of lengths. |
| Blocks.BodyRound | server/modules/zlib/src/trees.c:1072-1118 | Read by LEN to LIT, the body of any valid token list writes exactly the expansion of the tokens and ends at the end-of-block code. |
| Costs.BodyLength | server/modules/zlib/src/trees.c:514-529 | The body of a block has exactly as many bits as the frequencies, lengths and extra bits say. |
| Costs.HeaderLength | server/modules/zlib/src/trees.c:803-831 | The header has exactly 14 + 3 * blcodes bits plus the cost of the bit length symbols. |
| Encoder.TreeCoder.constructor | server/modules/zlib/src/trees.c:382-406 | _tr_init: an empty block, an empty stream and the static tables. |
| Encoder.TreeCoder.InitBlock | server/modules/zlib/src/trees.c:411-424 | No token is tallied; all frequencies are those of the empty block with its end-of-block symbol. |
| Encoder.TreeCoder.TrTally | server/modules/zlib/src/trees.c:1022-1067 | Appends one token to the tallied tokens, keeps both frequency tables equal to the counts of symbols in the tokens, and reports a full buffer at lit_bufsize - 1. |
| Encoder.TreeCoder.MakeTrees | server/modules/zlib/src/trees.c:938-947 | After both build_tree calls opt_len and static_len are the sizes of the tokens with the new codes and with the fixed codes. |
| Encoder.TreeCoder.BuildTrees | server/modules/zlib/src/trees.c:935-956 | opt_len is exactly the length of the dynamic block and static_len that of the static block, each without its three type bits, forced codes, repair, extra bits and header included. |
| Encoder.TreeCoder.SendBlock | server/modules/zlib/src/trees.c:972-1001 | The block form that is chosen is the one that is sent. |
| Encoder.TreeCoder.TrFlushBlock | server/modules/zlib/src/trees.c:921-1016 | Sends one block that stands for exactly the tallied tokens, by the stored, static or dynamic form with the size comparisons of the source proved against the real sizes; then starts an empty block, padded after the last one; last_eob_len is the length of the end-of-block code sent; the header of a dynamic block sends no lengths behind the last one in use. |
| Streams.RawRound | server/modules/zlib/src/inflate.c:773-1100 | Any stream of good blocks, raw: the machine ends DONE with the output of the blocks and leaves whatever follows unread. |
| Streams.ZlibRound | server/modules/zlib/src/inflate.c:589-633 | The same for a stream with zlib header and Adler-32 trailer, for every window size and level flag. |
| Streams.OpenRound | server/modules/zlib/src/inflate.c:773-806 | A stream that has not been finished brings the machine to the next block with the output of all its blocks. |
| Streams.ZlibRejects | server/modules/zlib/src/inflate.c:1103-1124 | A stream with a wrong check value brings the machine to BAD after all of the output. |
| Machine.OrderOutwards | server/modules/zlib/src/inflate.c:574-575 | The order of the code length code lengths: 16, 17, 18 and 0, then outwards from 8: 8 + j at 2j + 4 and 8 - j at 2j + 3. |
| InfTrees.InflateTable | server/modules/zlib/src/inftrees.c:32-329 | Accepts exactly the sets of lengths that are complete, empty, or (not for CODES) a single one-bit code. The table returned decodes every code: indexed by any bits that start with it, through at most one sub-table, it gives that symbol and exactly its length; indices that no code starts give the invalid code marker. A return of 1 needs a LENS table of ENOUGH - MAXD entries. |
| InfTrees.EnoughSuffices | server/modules/zlib/src/inftrees.c:168-173 | What the comment leaves open: no acceptable literal/length code needs ENOUGH - MAXD entries, and both tables together fit in ENOUGH, so the return of 1 never happens. |
| Lookup.RootEntry | server/modules/zlib/src/inflate.c:950-956 | The root entry for an accumulator is the entry of the next symbol, or a link if its code is longer than the root index. |
| Lookup.LinkedEntry | server/modules/zlib/src/inflate.c:957-966 | The linked entry is that of the next symbol, and its length is what the symbol needs. |
| Lookup.NeedsStable | server/modules/zlib/src/inflate.c:950-956 | Once a code is complete in the accumulator, further bytes change neither the symbol nor its length. |
| Decode.ReadSymbol | server/modules/zlib/src/inflate.c:950-967 | The lookup loop of LEN, DIST and CODELENS: consumes exactly the next symbol and leaves fewer than eight bits, or leaves the stream as it was when the input is used up. |
| BitSource.BitSource.PullByte | server/modules/zlib/src/inflate.c:433-439 | Moves one byte from the input to the accumulator; the rest of the stream is unchanged. |
| BitSource.BitSource.NeedBits | server/modules/zlib/src/inflate.c:443-447 | Enough bits without changing the rest of the stream, pulling no byte more than needed, or all input used. |
| BitSource.BitSource.DropBits | server/modules/zlib/src/inflate.c:454-458 | Consumes exactly n bits of the stream. |
| BitSource.BitSource.ByteBits | server/modules/zlib/src/inflate.c:461-465 | Consumes the bits up to the byte boundary. |
| BitSource.BitSource.GiveBack | server/modules/zlib/src/inffast.c:287-300 | Returns whole bytes from the accumulator to the input without changing the rest of the stream. |
| Window.Window.Update | server/modules/zlib/src/inflate.c:323-371 | updatewindow: after any sequence of calls the circular window, read back from `write`, holds exactly the last min(wsize, total) bytes of all output, whave is that number, and equals write while the window is not full. |
| Output.Output.CopySome | server/modules/zlib/src/inflate.c:1046-1067 | One pass through MATCH: copies as many bytes as there is room and source for, from window or output, byte by byte the overlapping copy of LZ77. |
| Output.Output.CopyThrees | server/modules/zlib/src/inffast.c:246-259 | The unrolled copy by threes writes exactly `length` bytes of the overlapping copy, none past it. |
| Output.Output.CopyMatch | server/modules/zlib/src/inffast.c:186-259 | All branches of the copy, from a window that wraps, part window and part output, or the output alone, give the overlapping copy of the whole history. |
| InflateFast.FastSymbol | server/modules/zlib/src/inffast.c:126-139 | The lookup without input checks gives the same symbol as the slow path, given 15 bits. |
| InflateFast.InflateFast | server/modules/zlib/src/inffast.c:67-302 | inflate_fast makes a run of the same machine as LEN to LIT: same output, same remaining bits, same next mode and same errors; on exit fewer than eight bits are held, and next_in is not before its value on entry. |
| Modes.DoHead | server/modules/zlib/src/inflate.c:589-633 | HEAD makes the header step of the machine, with the checks in the order of the source. |
| Modes.DoType | server/modules/zlib/src/inflate.c:773-806 | TYPE and TYPEDO make the block type step, or the step to CHECK after the last block. |
| Modes.DoStored | server/modules/zlib/src/inflate.c:807-819 | STORED aligns, and compares length and complement. |
| Modes.DoTable | server/modules/zlib/src/inflate.c:837-854 | TABLE reads the three counts and rejects what the format forbids. |
| DynamicModes.DoLenLens | server/modules/zlib/src/inflate.c:855-875 | LENLENS reads any number of lengths per call, in the order of the format, and builds the code length table or rejects it. |
| DynamicModes.DoCodeLens | server/modules/zlib/src/inflate.c:876-949 | CODELENS reads one continuous list of lengths, with repetitions across both codes, and builds both tables in `codes` or rejects them. |
| CodeModes.DoLen | server/modules/zlib/src/inflate.c:950-992 | LEN decodes one literal/length symbol as the machine does. |
| CodeModes.DoLenExt | server/modules/zlib/src/inflate.c:993-1000 | LENEXT adds the extra bits of the length. |
| CodeModes.DoDist | server/modules/zlib/src/inflate.c:1001-1025 | DIST decodes one distance symbol as the machine does. |
| CodeModes.DoDistExt | server/modules/zlib/src/inflate.c:1026-1045 | DISTEXT adds the extra bits and rejects distances beyond the output. |
| CodeModes.DoMatch | server/modules/zlib/src/inflate.c:1046-1070 | MATCH writes at least one byte of the match, as the byte-wise steps of the machine would. |
| CodeModes.DoLit | server/modules/zlib/src/inflate.c:1071-1076 | LIT writes the literal. |
| CodeModes.DoCopy | server/modules/zlib/src/inflate.c:820-836 | COPY moves as many stored bytes as input and room allow. |
| CodeModes.DoCheck | server/modules/zlib/src/inflate.c:1077-1113 | CHECK compares the trailer with the Adler-32 value of all output, kept over all calls; DONE leaves nothing in the accumulator. |
| Inflater.MakeFixed | server/modules/zlib/src/inflate.c:205-246 | The fixed tables decode the fixed codes. |
| Inflater.InflateInit2 | server/modules/zlib/src/inflate.c:144-185 | A decoder at the start of a stream. |
| Inflater.Inflater.Advance | server/modules/zlib/src/inflate.c:587-1134 | One mode keeps the invariant: the run of the machine over the whole stream has come to where the decoder stands, tables, window and check value fit it, and the accumulator holds less than a byte or less than the next step needs. |
| Inflater.Inflater.Inflate | server/modules/zlib/src/inflate.c:554-1153 | One call with any input and any room: consumes and produces what it says, keeps the invariant, and stops only at a verdict, for want of input, for want of room with a byte to write, or before a block if so asked; the return code says which. A call that starts and ends at a block boundary has read or written something, or used up its input. |
| Chunking.SameEnd | server/modules/zlib/src/inflate.c:554-1153 | Chunking independence: two decoders of the same stream, called with any split of input and room, that have come to an end have the same output, the same state, the same verdict, and have consumed the same number of bits. |
| Chunking.Beginning | server/modules/zlib/src/inflate.c:554-1153 | At any time the output is a beginning of the output that any other decoder of the stream ends with. |
| Hash.ThreeUpdates | server/modules/zlib/src/deflate.c:164-170 | After three updates the rolling hash depends on the last three bytes only. |
| Hash.ThirdByte | server/modules/zlib/src/deflate.c:1126-1133 | Two strings with the same hash and the same first two bytes have the same third byte, which is why the matcher need not compare it. |
| Chains.ChainsInsert | server/modules/zlib/src/deflate.c:184-192 | INSERT_STRING keeps the chains exact: every head is the newest inserted string with its hash, or NIL if there is none, and every link not yet overwritten leads to the newest older string with the same hash. |
| Chains.ChainsSlide | server/modules/zlib/src/deflate.c:1293-1326 | Sliding head and prev by w_size keeps the chains exact at the new base; strings that fall out of the window become NIL. |
| Chains.CandidatesAll | server/modules/zlib/src/deflate.c:1027-1168 | The strings that a search looks at leave out an inserted string with the same hash, nearer than MAX_DIST and not at window index 0, only if the budget has been spent on newer ones. |
| Matcher.Matcher.InsertString | server/modules/zlib/src/deflate.c:184-192 | Inserts the string and returns the newest earlier string of the same hash, so NIL only if there is none in the window. |
| Matcher.LinksAre | server/modules/zlib/src/deflate.c:1027-1168 | Following prev from a string visits exactly the older strings with its hash above the limit, newest first, up to the budget. |
| Matcher.Matcher.Compare | server/modules/zlib/src/deflate.c:1132-1148 | The comparison loop ends at the first difference or at MAX_MATCH, although it checks the end only every eighth byte. |
| Matcher.Matcher.LongestMatch | server/modules/zlib/src/deflate.c:1027-1168 | A result above prev_length is a true match within the lookahead and within MAX_DIST, and the nearest of that length; unless it is nice enough or fills the lookahead, no string of the chain within the budget agrees in one byte more. |
| Matcher.Matcher.LongestMatchFast | server/modules/zlib/src/deflate.c:1175-1226 | The match with the one candidate, as long as possible, or too short to be used. |
| Matcher.Matcher.ReadBuf | server/modules/zlib/src/deflate.c:956-981 | Takes as much input as fits, appends it to window and input, and keeps the Adler-32 value. |
| Matcher.Matcher.Slide | server/modules/zlib/src/deflate.c:1293-1326 | The slide keeps the window equal to the input at the new base, the chains, and the absolute positions of match and block start. |
| Matcher.Matcher.FillWindow | server/modules/zlib/src/deflate.c:1266-1358 | Consumes input in order, keeps all absolute positions, and ends with MIN_LOOKAHEAD bytes or with the input used up. |
| Matcher.Matcher.ClearHash | server/modules/zlib/src/deflate.c:199-201 | All heads are NIL and no string is remembered; the restart is at the current string. |
| Deflater.Deflater.TallyMatch | server/modules/zlib/src/deflate.c:1501-1502 | A match that repeats the input at a distance of at most MAX_DIST extends the tokens by exactly those bytes. |
| Deflater.Deflater.FlushPending | server/modules/zlib/src/deflate.c:532-549 | Puts out as much of the pending bytes as there is room for. |
| Deflater.Deflater.WriteBlock | server/modules/zlib/src/deflate.c:1364-1373 | The blocks written stand for exactly the input up to the current string, and the next block starts there. |
| Deflater.Deflater.FlushIf | server/modules/zlib/src/deflate.c:1376-1379 | A block is written exactly if the buffer of tokens is full, and then it has lit_bufsize - 1 tokens. |
| Deflater.Deflater.FindLazy | server/modules/zlib/src/deflate.c:1583-1612 | The record of a search is true: it is made if and only if the source makes one, its length is that of longest_match or longest_match_fast after the filters for short matches, and the match pending before it is kept. |
| Deflater.Deflater.InsertRest | server/modules/zlib/src/deflate.c:1633-1640 | Of the strings inside a match exactly those that are complete enter the hash table. |
| Deflater.Deflater.PassFast | server/modules/zlib/src/deflate.c:1504-1535 | The strings inside a match enter the hash table exactly if the match is at most max_insert_length long and three bytes of lookahead are left after it; otherwise all of them are skipped. |
| Deflater.Deflater.DeflateFast | server/modules/zlib/src/deflate.c:1448-1546 | In every run, over any number of slides, blocks and tallied tokens expand to exactly the input up to strstart, with distances in 1..MAX_DIST and lengths in 3..258; each token is the outcome of the search at its position, none looks back before the last full flush, and all new blocks but possibly the last have lit_bufsize - 1 tokens; the block state says what is left to do. |
| Deflater.Deflater.DeflateSlow | server/modules/zlib/src/deflate.c:1554-1674 | The same with lazy matching, up to the one pending literal when match_available is set: a token is the outcome of two searches, at its position and at the next. Strings are skipped only at the end of the input of a call that flushes. |
| Deflater.Deflater.Flushed | server/modules/zlib/src/deflate.c:808-819 | The marker after a flush: an empty stored block on a byte boundary, or the number of empty static blocks that _tr_align writes; after a full flush no string is remembered, and what is written from here on stands for the input from here on by itself. Other flushes leave the history as it was. |
| Picks.LiteralReason | server/modules/zlib/src/deflate.c:1498-1541 | Why a literal, when three bytes could be seen and the strategy searches: no string since the last full flush and within reach agrees in three bytes, unless it was skipped or the budget was spent on newer ones; or (deflate_slow only) the longest match was given up as short, or the next position has a longer one. |
| Picks.MatchReason | server/modules/zlib/src/deflate.c:1617-1655 | Why a match: it repeats the input at that distance, no nearer string looked at repeats as much, nothing within reach repeats more unless the match is nice or reaches the end of the input, and deflate_slow has found nothing longer at the next position. |
| Compressor.DeflateInit2 | server/modules/zlib/src/deflate.c:216-312 | Refuses exactly the parameters the source refuses; otherwise an empty compressor with the sizes, header flags and search parameters that level, windowBits, memLevel and strategy ask for. |
| Compressor.Compressor.Trailer | server/modules/zlib/src/deflate.c:847-849 | Header, blocks and the Adler-32 value of the input make a whole zlib stream. |
| Compressor.Compressor.Deflate | server/modules/zlib/src/deflate.c:552-856 | One call with any input, room and flush value: what is taken is a prefix of the input; the call is refused if and only if the stream is at its end and flush is not Z_FINISH, or there is no room, or there is nothing to do that the last call has not done, or there is input after the end; refused calls change nothing. Room left over means that all input is taken and, after a sync or full flush, put out on a byte boundary, with the restart there after a full flush; with Z_FINISH it means Z_STREAM_END and a finished stream. |
| Compressor.Compressor.Distances | server/modules/zlib/src/deflate.c:1588-1596 | No match of a finished stream reaches back farther than 2^w_bits - MIN_LOOKAHEAD for the window size that its header declares. |
| Compressor.Compressor.TokenReason | server/modules/zlib/src/deflate.c:1448-1674 | In every state each token of each coded block written so far fits the record of a search made at exactly the position where the token stands. Since the last full flush that search knew every earlier string, except those cut off by the end of the input of a call with a flush value, and 262 bytes ahead unless such an end is nearer. |
| Compressor.Compressor.LiteralWritten | server/modules/zlib/src/deflate.c:1448-1674 | The reasons for a literal, for every literal of every stream. |
| Compressor.Compressor.MatchWritten | server/modules/zlib/src/deflate.c:1448-1674 | The reasons for a match, for every match of every stream; its source is not before the last full flush that preceded it. |
| Compressor.Compressor.RestartTrip | server/modules/zlib/src/zlib.h:283-287 | The machine, started raw at the first byte after the last full flush of a finished stream, ends with exactly the input since that flush and stops before the trailer. |
| Compressor.InflatesBack | server/modules/zlib/src/deflate.c:552-856 | A whole stream inflates to its input, with the check value accepted and what follows unread. |
| Compressor.Compressor.RoundTrip | server/modules/zlib/src/deflate.c:552-856 | A compressor that is finished, after any sequence of calls with any parameters, has written a stream that inflates to its input. |
| EndToEnd.Restored | server/modules/zlib/src/inflate.c:554-1153 | A decoder called in any way on what a compressor has written, called in any way, and then anything else: when it has come to an end it is DONE with exactly the input, next_in stands right after the stream, and no bit is held. |
| EndToEnd.NoError | server/modules/zlib/src/inflate.c:554-1153 | At any time such a decoder has a prefix of the input and no error. |
| EndToEnd.RoomWanted | server/modules/zlib/src/inflate.c:554-1153 | If it waits for room, it has not got all of the input and not read all of the stream. |
| EndToEnd.Truncated | server/modules/zlib/src/inflate.c:554-1153 | On a proper prefix of the stream there is no verdict, and the output is a prefix of the input. |
| EndToEnd.FlushRestores | server/modules/zlib/src/deflate.c:808-825 | After a sync or full flush, a decoder that has read what has been put out has all of the input so far. |
| EndToEnd.RestartRestores | server/modules/zlib/src/zlib.h:283-287 | A raw decoder that is given a finished stream from the first byte after a full flush on, in any calls, ends DONE with exactly the input since that flush. |
| EndToEnd.RestartFlushed | server/modules/zlib/src/zlib.h:283-287 | After a later sync or full flush such a decoder has all of the input since the restart. |
| EndToEnd.EndsWhere | server/modules/zlib/src/inflate.c:554-1153 | On any stream at all, whole or damaged, a decoder that has come to an end is where the run of the machine over the whole stream ends; one that waits for room has less output than that run, or nothing left to read. |
| OneShot.Compress2 | server/modules/zlib/src/compress.c:22-58 | Z_OK means that the destination holds a stream that restores the source; Z_BUF_ERROR means that the room is used up; a wrong level is refused. |
| OneShot.Uncompress | server/modules/zlib/src/uncompr.c:26-61 | On a stream that restores x, possibly followed by other bytes: Z_OK with exactly x if the destination is large enough, else Z_BUF_ERROR; on a proper prefix of it, Z_DATA_ERROR. On any source whose run has output that fits: Z_OK if the run of the machine ends DONE and Z_DATA_ERROR otherwise, with exactly the output of that run. |
| Adler32.Adler32 | server/modules/zlib/src/adler32.c:57-125 | For every buffer and start value in range the blocked sums equal the definition with a reduction after every byte, and nothing exceeds 32 bits. |
| Adler32.BaseIsGreatestPrime | server/modules/zlib/src/adler32.c:11 | BASE is prime, and no number between BASE and 65536 is. |
| Adler32.NmaxIsGreatest | server/modules/zlib/src/adler32.c:12-13 | NMAX is the greatest n with 255n(n+1)/2 + (n+1)(BASE-1) <= 2^32-1. |
| Adler32.Adler32Combine | server/modules/zlib/src/adler32.c:128-149 | The arithmetic of adler32_combine; the result fits in 32 bits. |
| Adler32.CombineIsConcatenation | server/modules/zlib/src/adler32.c:128-149 | Each half is congruent modulo BASE to the checksum of the concatenation and at most BASE; the result is that checksum if and only if neither residue is zero (see Findings). |
| Adler32.CombineDegenerateExample | server/modules/zlib/src/adler32.c:128-149 | An input for which adler32_combine does not give the checksum of the concatenation. |
| Crc32.MakeCrcTable | server/modules/zlib/src/crc32.c:106-149 | The eight tables are the values of one to four bytes of polynomial shift steps, and their byte reversals, with the polynomial built from its exponents. |
| Crc32.Do1 | server/modules/zlib/src/crc32.c:215 | One table lookup is eight shift steps of the bitwise definition. |
| Crc32.DoLit4 | server/modules/zlib/src/crc32.c:256-258 | Four lookups on a little-endian word are 32 shift steps. |
| Crc32.DoBig4 | server/modules/zlib/src/crc32.c:296-298 | The same for a big-endian word and a register with its bytes in reverse. |
| Crc32.FeedWord | server/modules/zlib/src/crc32.c:256-258 | Feeding four bytes one after the other is the same as adding the word and shifting 32 times. |
| Crc32.Crc32Little | server/modules/zlib/src/crc32.c:262-293 | For every start value, length and alignment the result is the bitwise definition. |
| Crc32.Crc32Big | server/modules/zlib/src/crc32.c:302-335 | The same on a big-endian machine. |
| Crc32.Crc32 | server/modules/zlib/src/crc32.c:219-251 | All three ways to compute it agree with the bitwise definition (section 8 of RFC 1952). |
| Crc32.CrcAppend | server/modules/zlib/src/crc32.c:219-251 | A running check value may be continued at any point. |
| Crc32.MatrixTimes | server/modules/zlib/src/crc32.c:342-356 | The product of the matrix for n zero bits and a vector is the vector shifted n times; the loop stays within the 32 columns. |
| Crc32.MatrixSquare | server/modules/zlib/src/crc32.c:359-367 | The square of the matrix for n zero bits is the matrix for 2n. |
| Crc32.Crc32Combine | server/modules/zlib/src/crc32.c:370-423 | The loop over even and odd powers shifts the first value by eight times len2 steps and adds the second; with len2 of zero it returns the first. |
| Crc32.CombineIsConcatenation | server/modules/zlib/src/crc32.c:370-423 | For all strings and any start value, the combination of the check values is the check value of the concatenation. |
| FixedAlloc.FixedAlloc.constructor | server/tamarin-source/tamarin-central/MMgc/FixedAlloc.cpp:50-69 | No block and no item; m_itemsPerBlock is the greatest number of items that fit behind the block head. |
| FixedAlloc.FixedAlloc.CreateChunk | server/tamarin-source/tamarin-central/MMgc/FixedAlloc.cpp:140-181 | A new page not in use, at the end of the list of blocks and first of those that are not full; m_maxAlloc grows by one block. |
| FixedAlloc.FixedAlloc.FreeChunk | server/tamarin-source/tamarin-central/MMgc/FixedAlloc.cpp:183-211 | Removes exactly this block from both lists, wherever it stands, and gives its page back. |
| FixedAlloc.FixedAlloc.Alloc | server/tamarin-source/tamarin-central/MMgc/FixedAlloc.h:63-154 | Returns an item that is not in use, the one that the first block with free items offers, changes no word of memory, and keeps the invariant of all blocks and lists; m_maxAlloc grows by one block exactly if all blocks were full before, or are after it. |
| FixedAlloc.FixedAlloc.Free | server/tamarin-source/tamarin-central/MMgc/FixedAlloc.h:156-196 | Exactly this item is no longer in use and is what its block offers next; all other items in use keep their contents; the page is given back, and m_maxAlloc falls by one block, exactly if no item on the page is in use any more; a block that was full goes to the head of the list, otherwise the list stays. |
| FixedAlloc.FixedAlloc.EmptyPage | server/tamarin-source/tamarin-central/MMgc/FixedAlloc.h:190-195 | A block is empty exactly if no item on its page is in use. |
| FixedAlloc.FixedAlloc.FullIff | server/tamarin-source/tamarin-central/MMgc/FixedAlloc.h:131-141 | No block is listed as having free items exactly if m_maxAlloc items are in use. |
| FixedAlloc.FixedAlloc.Write | server/tamarin-source/tamarin-central/MMgc/FixedAlloc.h:85-90 | A client that writes to its own items does not disturb the free lists. |
| FixedAlloc.FixedAlloc.LiveApart | server/tamarin-source/tamarin-central/MMgc/FixedAlloc.h:63-196 | In every state items in use do not overlap, lie behind the head of a page in use, and are aligned to the item size. |
| FixedAlloc.FixedAlloc.Tally | server/tamarin-source/tamarin-central/MMgc/FixedAlloc.h:131-193 | In every state numAlloc, the free list and the items never handed out add up to m_itemsPerBlock, and a block is listed as free exactly if it is not full. |
| FixedAlloc.FixedAlloc.GetBytesInUse | server/tamarin-source/tamarin-central/MMgc/FixedAlloc.cpp:128-138 | The sum over the blocks is the number of items in use times their size, and there are at most m_maxAlloc of them. |

## Findings

- adler32_combine does not always return the checksum of the concatenation. Where a residue is zero the source leaves
  BASE instead of 0 in that half: for two empty strings the low half is right but the high half is 65521. The result is
  the checksum of the concatenation if and only if `Degenerate` is false, that is, if `(a1 + a2) % BASE != 1` and
  `(len2 * a1 + b1 + b2 - len2) % BASE != 0`, which a caller can compute from the arguments.
  `Adler32.CombineIsConcatenation` proves this for all strings, and that the result is always right modulo BASE;
  `Adler32.CombineDegenerateExample` gives the input.
- The comment at `server/modules/zlib/src/inftrees.c:168-173` says that ENOUGH has not been proven sufficient.
  `InfTrees.EnoughSuffices` proves it, so the check that it justifies never fails.
- The comment at `server/modules/zlib/src/trees.c:655` says that a forced symbol is 0 or 1; it can be 2, when the symbol
  of non-zero frequency is 1. Like 0 and 1 it has no extra bits, so nothing goes wrong.
- The loop of fill_window (`server/modules/zlib/src/deflate.c:1274-1357`) never runs a second time: without a slide
  strstart is below w_size + MAX_DIST, which leaves room for at least 263 bytes of lookahead.
- The second test for short matches in longest_match_fast (`server/modules/zlib/src/deflate.c:1222`) has no effect: the
  comparison never returns less than three.
- With fewer than three bytes of lookahead a hash head of an earlier string can reach longest_match. The match found is
  then shorter than MIN_MATCH and is not used.
- `crc32_combine` ignores its second value when len2 is zero, which is right for the check value of an empty string.
- The 32-bit accumulator of inflate() never holds more than 32 bits, so an `unsigned long` of 32 bits is enough.

## Left out

- Compressor.DeflateInit2: level 0 (deflate_stored) and windowBits above 15 (gzip wrappers) are not part of this model; the zlib header, which deflate writes in its first call, is written at creation.
- OneShot.Compress2: level 0, as above; that the room of compressBound is always enough is not proved.
- Inflater.InflateInit2: windowBits is 15; with a smaller window the verdict on a distance that is too far back can depend on how the stream is cut into calls.
- Inflater.Inflater.Inflate: gzip headers and trailers, preset dictionaries (DICTID ends the run before the dictionary id is read), inflateSync, inflatePrime and the data_type result are not modelled; the check for Z_BUF_ERROR is.
- Compressor.Compressor.Deflate: deflateParams, deflateTune, deflatePrime, deflateSetDictionary and deflateReset between calls are not modelled; parameters are fixed at creation, as the LZ77 results require.
- Matcher.Matcher.LongestMatch: the build without FASTEST, ASMV and UNALIGNED_OK.
- Matcher.Matcher.Compare: reads of the window past the lookahead are in bounds, but the bytes there are whatever the array holds.
- Encoder.TreeCoder.TrFlushBlock: set_data_type, which only guesses at text or binary data; the overlay of pending_buf with d_buf and l_buf, which are separate buffers here; builds with FORCE_STORED or FORCE_STATIC.
- InfTrees.InflateTable: lengths are those of the 15-bit format, as its comment assumes.
- Crc32.Crc32Combine: negative len2, for which the source does not end; NULL buffers in all checksum functions.
- Adler32.Adler32Combine: negative len2.
- FixedAlloc.FixedAlloc.Alloc: running out of memory in GCHeap, which hands out any page not in use; the MEMORY_INFO and sampling code.
- FixedAlloc.FixedAlloc.FreeChunk: the destructor, which frees blocks with items still in use.
- The fields of deflate_state and inflate_state are split over several objects with one owner; `lens` of inflate_state is a sequence.
- The literal tables of `inffixed.h`, `trees.h` and `crc32.h` are defined by the programs that generate them.
- `deflateBound`, `compressBound`, the copy functions, `gzio.c`, `infback.c`, allocation failure and NULL arguments.
- FixedMalloc, the collector and the rest of MMgc, and all of the repository outside the two directories.
