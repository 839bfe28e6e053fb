# Boot loader cores, modelled and verified

This project models five parts of the boot loaders in Dafny and proves what they promise.  The parts
are independent of each other.

**The DEFLATE decoder** (`Bits`, `Canonical`, `Huft*`, `InflateTrees`, `Deflate*`, `Inf*`, `Inflate`,
`LostOutput`, `Rfc*`).  `HuftBuild.Build` turns code lengths into linked lookup tables in one array,
with the original's loops; `HuftTables` says what right tables are, and that walking them decodes the
canonical code of section 3.2.2 of RFC 1951.  `Deflate` is a deterministic machine over a bit stream and
an unbounded history, without bit buffer, window or tables.  The decoder itself (class
`InfUtil.Inflater` and the methods of `InfLookup`, `InfFast`, `InfCodes`, `InfBlock`, `InfBlocks`,
`Inflate`) works with a 32-bit buffer, a ring of bytes and saved modes; every one of its steps is a step
of the machine, and it leaves only when the machine cannot go on or output space is used up.  Hence what
it delivers does not depend on how input and output are cut up.  `HuftCapacity` bounds the table space
of all codes.  `Rfc` reads the data of a block in the words of sections 3.2.3 and 3.2.5 to 3.2.7,
without tables, levels or window, and `RfcStream` a whole stream; both show that the machine does just
that, as long as it looks at no bits beyond the input and meets no distance that is not allowed, and
what it does otherwise.  The reading shares no numbers with the decoder: `RfcNumbers` gives those of the
RFC as formulas, shows that they leave no gaps, and that the decoder's lists hold them.  `RfcLimits` has
a stream of either kind.

**The flattened device tree editor** (`FtBlob`, `FtLayout`, `FtSpace`, `FtReserve`, `FtTokens`,
`FtTree`, `FtNames`, `FtEdit`, `FtCreate`, `FtEnd`, `FtPaths`, `FtRun`, `FtLost`).  Class `FtSpace.Cxt`
holds addresses into one buffer that may move.  A view replaces addresses by positions; making room
changes a view only by a gap.  A structure represents a sequence of tokens, these with the strings a
flattened tree, and edits of the blob are edits of the tree.  Nodes handed out are followed through runs
of edits by their number in preorder, and so by their path in the tree.

**The ext2 read path** (`Ext2*`): block iteration with holes, reads of contiguous blocks, path name
resolution, and the inode cache.

**The ReiserFS tree cursor and journal** (`Reiser*`): the path through the tree kept as one number per
level with a cache of nodes, and block lookup in a log that is part cached and part on disk.

**The allocator of the PS3 wrapper** (`AllocTable`, `SimpleAlloc`): its table as a value, its operations
on the table in place, and what holds in every run.

Shifts and masks are written by recursion on the number of bits (`Bits`), products of a block size
by recursion on the number of blocks (`Ext2File.Size`), and wrapping of log positions by repeated
subtraction (`ReiserLog.Wrap`), so that few proofs need multiplication by unknowns; `Division` shows
that these are products, quotients and remainders.  `hide` statements keep definitions out of proofs
that do not need them.

## What the proofs brought to light

- `huft_build` makes a table of more than `l` bits when all codes with a prefix are longer than `l`
  further bits, and never writes part of it; its tables are right exactly for codes without such a
  prefix (`HuftBuild.Build`, `HuftBuild.DeepExample`).  The widths and alphabets of its callers rule it
  out for every code they accept (`InflateTrees.UsableShallow`).
- The table space is never used up: the codes of a block take at most 1374 of its 1440 entries
  (`HuftCapacity.ManySuffices`).
- Lookups are as wide as the tables, so the decoder may wait for bits after the end of a complete stream.
  It gets to the end exactly if all bits it looks at are there, and with one more byte always
  (`RfcStream.DoneExactly`, `RfcLimits.CompleteWaits`).
- Distances are not checked.  One that goes back beyond the first byte of output copies what was in the
  window before, and one beyond the window wraps around it, both without an error
  (`RfcStream.WindowShows`, `RfcLimits.BackShows`).  With other distances the output does not depend on the window's old content
  (`RfcStream.WindowIrrelevant`).
- Length 258 is also read from symbol 284 with all extra bits set (`RfcNumbers.LengthOnce`); section 3.2.5
  of RFC 1951 gives that symbol 227 to 257 only.
- The decoder refuses more than 30 distance codes, and blocks that have length codes but no distance codes;
  section 3.2.7 of RFC 1951 allows both.  A bit length code of a single symbol, of which RFC 1951 says
  nothing, is taken, with either bit standing for the symbol (`InfBlock.BitsLookup`).
- An error met while the output space is used up leaves decoded bytes undelivered for good: the outer
  decoder returns before it flushes again (`LostOutput.Lose`).  All of the output has been delivered
  after an error exactly if what was left of it had room in the call that met the error
  (`Inflate.DecodeCalls`).
- `ft_make_space` never adjusts the pointer into the strings when it moves these up, before or after
  reallocating.  `map_string` is right exactly if the string is there already or fits without that
  (`FtEdit.CanName`); otherwise it writes the string over the end of the structure, reports success, and
  returns an offset that names nothing (`FtEdit.MapString`).  Then no tokens lead to an end tag any more
  (`FtEdit.OverwrittenLost`, `FtLost.Lose`), unless only the last byte was replaced, by a tabulator,
  which is the byte it has.
- `ft_make_space` never asks the allocator for room in the reserve map of a blob in order: the size of the
  structure comes off the free space, which wraps around to a large number.  So a reservation fails where
  there is no room left; and where the structure is moved up for it, the current position is left behind
  (`FtReserve.MakeReserve`).  A reservation of nothing at address 0 ends the map (`FtReserve.EntryAdded`).
- `ft_create_node` refuses a child with the parent's own name, and does not notice siblings of the
  same name (`FtCreate.CreateNode`).
- An indirect block out of range makes the later blocks of a file come with logical numbers that are
  too small (`Ext2Iterate.Context.IterateInd`).
- Writing an inode on a read-only file system changes what the cache shows (`Ext2Inode.InodeCache.WriteInode`).
- A journal transaction that lists a block twice would be read from the first copy, so reading is the same
  as replaying exactly if the first and the last copy of the block in the newest transaction that lists it
  are the same (`ReiserLog.NewestIsReplay`, `ReiserLog.TwiceInOne`).
- A failing `simple_realloc` frees the block and copies its content to address zero
  (`AllocTable.ReallocLoses`), and sizes close to the largest word are granted blocks that
  are too small, mostly empty ones (`AllocTable.WrappedRequest`).

## Model

| member | source | states |
|---|---|---|
| `Canonical.DecodeIsRfc` | lilo/bootheader/common/inftrees.c:191-274 | a stream starts with the canonical code of symbol `s` (section 3.2.2 of RFC 1951) if and only if decoding by position in the code space finds `s`; so no two codes start the same stream |
| `Canonical.NextCodeIsEnd` | lilo/bootheader/common/inftrees.c:166-181 | the recurrence for the smallest code of each length gives the start of that length's interval in the code space |
| `Canonical.KraftAtMax` | lilo/bootheader/common/inftrees.c:166-172 | over-subscribed and incomplete can be told from the codes measured with the longest length in place of 15 bits |
| `Canonical.KraftIsSpace` | lilo/bootheader/common/inftrees.c:166-172 | over-subscribed and incomplete mean that the codes take more or less than all of the code space, added up symbol by symbol |
| `HuftTables.WalkDecodes` | lilo/bootheader/common/infcodes.c:81-114 | walking tables level by level from any stream ends at the entry of the code that covers it, with exactly that code's bits dropped |
| `HuftTables.WalkFindsSymbol` | lilo/bootheader/common/infcodes.c:81-114 | if the stream starts with the code of `s`, the walk ends at the operation and value of `s` after `lens[s]` bits |
| `HuftTables.WalkRejects` | lilo/bootheader/common/inftrees.c:253-254 | a stream that starts with no symbol's code ends at the invalid entry 128+64 |
| `HuftBuild.CountLengths` | lilo/bootheader/common/inftrees.c:131-140 | counts, for every length, the symbols that have it |
| `HuftBuild.LengthBounds` | lilo/bootheader/common/inftrees.c:149-163 | finds the shortest and the longest length used and clamps the lookup width between them |
| `HuftBuild.MissingCodes` | lilo/bootheader/common/inftrees.c:166-172 | the codes of the longest length left over: negative exactly for over-subscribed lists, zero for complete ones |
| `HuftBuild.Offsets` | lilo/bootheader/common/inftrees.c:175-180 | where the symbols of each length start in the list sorted by length |
| `HuftBuild.SortValues` | lilo/bootheader/common/inftrees.c:183-189 | the symbol of each length and rank is filed at its place; ranks follow symbol order |
| `HuftBuild.TableSize` | lilo/bootheader/common/inftrees.c:214-228 | the bits chosen for a table: just enough for the longest code with its prefix, at most the width, unless even the shortest is longer |
| `HuftBuild.BackwardIncrement` | lilo/bootheader/common/inftrees.c:271-274 | adds one to a code held with its first bit lowest; after the last code the result is 0 |
| `HuftBuild.Fill` | lilo/bootheader/common/inftrees.c:266-269 | writes an entry to exactly the slots of a table whose low bits are the rest of the code |
| `HuftBuild.MakeTables` | lilo/bootheader/common/inftrees.c:208-249 | opens and links tables up to a code's level, keeping all finished entries right, and fails exactly when table space runs out |
| `HuftBuild.Backup` | lilo/bootheader/common/inftrees.c:276-283 | goes back over finished tables to the one that the next code belongs to |
| `HuftBuild.EnterCode` | lilo/bootheader/common/inftrees.c:251-283 | enters one code: every slot it covers holds its symbol, and the tables behind it are complete |
| `HuftBuild.MakeLength` | lilo/bootheader/common/inftrees.c:204-284 | enters all codes of one length, in rank order |
| `HuftBuild.MakeCodes` | lilo/bootheader/common/inftrees.c:192-285 | enters all codes; on success the space used is exactly `Space`, and every slot of every table is right if and only if the code is shallow |
| `HuftBuild.CompleteIsShallow` | lilo/bootheader/common/inftrees.c:214-228 | a complete code of fewer than 2^(l+1) symbols never needs a table wider than `l` bits |
| `HuftBuild.DeepExample` | lilo/bootheader/common/inftrees.c:209-249 | a complete code that is not shallow when looked up one bit at a time |
| `HuftLabels.FindDeep` | lilo/bootheader/common/inftrees.c:209-249 | where all codes with a prefix are too long, the decoder comes to a table that is too deep |
| `HuftLabels.DeepReads` | lilo/bootheader/common/inftrees.c:266-269 | and for some stream reads an entry that was never written |
| `HuftLabels.DeepFails` | lilo/bootheader/common/inftrees.c:214-249 | no table above such a prefix is right |
| `HuftBuild.Build` | lilo/bootheader/common/inftrees.c:91-290 | the verdict is the Kraft test: data error for every over-subscribed list, buffer error exactly for incomplete lists with a code of more than one bit, otherwise success, except that it is data error exactly when the tables outgrow `MANY`; the tables are right if and only if the code is shallow, and otherwise there is a stream for which the decoder reads an entry that was never written |
| `HuftMarked.BuildMarked` | lilo/bootheader/common/inftrees.c:91-290 | in a table space full of marks that no entry can be, some stream leads the decoder to a mark if and only if the code is not shallow |
| `HuftMarked.CallersNoLinks` | lilo/bootheader/common/inftrees.c:38-54 | no symbol of the callers' alphabets looks like a link to another table |
| `HuftSpace.SingleTableSpace` | lilo/bootheader/common/inftrees.c:231-235 | a code looked up at once takes one table |
| `HuftCapacity.ManySuffices` | lilo/bootheader/common/inftrees.c:231-235 | whatever usable codes a block has, their tables take at most 1374 entries of the 1440 there are |
| `HuftCapacity.DynamicIsKraft` | lilo/bootheader/common/inftrees.c:317-375 | so the codes of a block are refused exactly for what their lengths add up to, never for lack of space |
| `InflateTrees.UsableShallow` | lilo/bootheader/common/infblock.c:280-285 | the codes that the callers accept are shallow at the widths they ask for |
| `InflateTrees.UsableWidth` | lilo/bootheader/common/inftrees.c:149-163 | such codes are looked up no wider than asked for, whatever their shortest length |
| `InflateTrees.TreesBits` | lilo/bootheader/common/inftrees.c:293-315 | succeeds exactly for usable bit length codes, and then leaves their complete table |
| `InflateTrees.TreesDynamic` | lilo/bootheader/common/inftrees.c:317-375 | succeeds exactly if both codes are usable, or there are no distances and no lengths, and then leaves both codes' tables side by side |
| `InflateTrees.TreesFixed` | lilo/bootheader/common/inftrees.c:378-413 | leaves the tables of the two fixed codes, although the distance code is incomplete |
| `Deflate.Border` | lilo/bootheader/common/infblock.c:20-21 | the order of the bit length code lengths is a permutation, with its inverse given |
| `DeflateRun.NextGood` | lilo/bootheader/common/infblock.c:124-328 | every step of the DEFLATE machine keeps usable codes, positive distances and bounded code lengths |
| `DeflateRun.NextProgress` | lilo/bootheader/common/infblock.c:122-328 | every step uses up bits or goes down in phase, so decoding never loops |
| `DeflateRun.NextWithinNeed` | lilo/bootheader/common/infcodes.c:81-150 | a step uses no bits but those it waits for |
| `DeflateRun.NextHist` | lilo/bootheader/common/infcodes.c:152-170 | a step appends one byte to the output or none, and never changes earlier output |
| `DeflateRun.ReachesMoreInput` | lilo/bootheader/common/infblock.c:127-127 | with more input the machine goes the same way further |
| `DeflateRun.ReachedComparable` | lilo/bootheader/common/infblock.c:122-328 | of two states on the same run one comes from the other, and its output extends the other's |
| `DeflateRun.StuckUnique` | lilo/bootheader/common/infblock.c:122-328 | there is only one state in which the machine has to wait or ends |
| `InfUtil.BufferLoad` | lilo/bootheader/include/zlib/infutil.h:80-80 | OR-ing in the next input byte keeps the bit buffer equal to the unread stream, even over bits left there by bytes handed back |
| `InfUtil.BufferDump` | lilo/bootheader/include/zlib/infutil.h:81-81 | dropping bits moves the stream position by just these bits |
| `InfUtil.BufferFits` | lilo/bootheader/include/zlib/infutil.h:80-80 | the bit buffer and the byte shifted into it are 32-bit numbers |
| `InfUtil.BufferReturn` | lilo/bootheader/common/inffast.c:22-22 | handing whole bytes back without clearing the buffer keeps it right |
| `InfUtil.RingBack` | lilo/bootheader/common/infcodes.c:153-157 | the byte a distance back in the output is at the write position less the distance, around the window |
| `InfUtil.RingWrite` | lilo/bootheader/include/zlib/infutil.h:88-88 | writing a byte appends it to the output that the window shows |
| `InfUtil.StreamByte` | lilo/bootheader/include/zlib/infutil.h:79-79 | byte `i` of the input is the eight bits of the stream from bit `8 * i` on |
| `InfUtil.Inflater.constructor` | lilo/bootheader/common/infblock.c:87-103 | starts with an empty bit buffer and nothing to deliver |
| `InfUtil.CopyOut` | lilo/bootheader/common/infutil.c:52-54 | delivers the next bytes of the output, in order |
| `InfUtil.Flush` | lilo/bootheader/common/infutil.c:24-89 | delivers exactly the smaller of the room and what is pending, each byte once and in order, around the end of the window |
| `InfUtil.CopyFromStart` | lilo/bootheader/common/infutil.c:57-81 | goes on at the start of the window |
| `InfUtil.NeedOut` | lilo/bootheader/include/zlib/infutil.h:85-87 | makes room for a byte; fails only if both the output space and the window are used up |
| `InfUtil.OutByte` | lilo/bootheader/include/zlib/infutil.h:88-88 | puts one byte into the window and the output |
| `InfUtil.NeedBits` | lilo/bootheader/include/zlib/infutil.h:78-80 | has `j` bits in the buffer, or fails with the input used up and nothing lost |
| `InfUtil.DumpBits` | lilo/bootheader/include/zlib/infutil.h:81-81 | drops bits |
| `InfUtil.PeekBits` | lilo/bootheader/common/infcodes.c:84-84 | the low bits of the buffer are the next bits of the stream |
| `InfUtil.ReturnBytes` | lilo/bootheader/common/infcodes.c:171-177 | hands bytes back; the stream position stays |
| `InfLookup.LookUpLiteral` | lilo/bootheader/common/infcodes.c:81-114 | one table lookup for a literal or length is one step of the machine |
| `InfLookup.LookUpDistance` | lilo/bootheader/common/infcodes.c:123-145 | one table lookup for a distance is one step of the machine |
| `InfLookup.CopyFrom` | lilo/bootheader/common/infcodes.c:153-157 | the window index to copy from, also for distances beyond the window |
| `InfLookup.CopyByte` | lilo/bootheader/common/infcodes.c:158-164 | copying one byte is one step of the machine, also when source and target overlap or wrap |
| `InfFast.GrabBits` | lilo/bootheader/common/inffast.c:21-21 | loads bits without a check, given enough input |
| `InfFast.CopyRun` | lilo/bootheader/common/inffast.c:98-123 | the unchecked copy of a string is a run of the machine's copy steps |
| `InfFast.FastSymbol` | lilo/bootheader/common/inffast.c:60-172 | one round of the unchecked loop is a run of whole symbol steps |
| `InfFast.InflateFast` | lilo/bootheader/common/inffast.c:29-177 | entered with 258 bytes of room and 10 of input, the fast path ends where a number of whole symbol steps of the slow path would: same window, same stream position, same outcome; unused bytes are handed back |
| `InfCodes.CaseLen` | lilo/bootheader/common/infcodes.c:81-114 | a step of the machine, or waits for input with its state unchanged |
| `InfCodes.CaseDist` | lilo/bootheader/common/infcodes.c:123-145 | likewise for distances |
| `InfCodes.CaseCopy` | lilo/bootheader/common/infcodes.c:152-165 | copies as far as there is room; can be resumed in the middle of a string |
| `InfCodes.CaseWash` | lilo/bootheader/common/infcodes.c:171-181 | gives back an unused byte and waits until all output is delivered |
| `InfCodes.InflateCodes` | lilo/bootheader/common/infcodes.c:40-195 | decodes symbols as a run of the machine; leaves only if input ran out, or output space with the window full or a block's end to be delivered, at the end of the block with everything delivered, or at an error |
| `InfBlock.CaseType` | lilo/bootheader/common/infblock.c:126-165 | reads a block header as the machine does |
| `InfBlock.CaseLens` | lilo/bootheader/common/infblock.c:166-178 | checks and takes the length of a stored block |
| `InfBlock.CaseStored` | lilo/bootheader/common/infblock.c:179-192 | copies a stored block as far as there is input and room |
| `InfBlock.CaseTable` | lilo/bootheader/common/infblock.c:193-210 | reads the counts of a dynamic block and refuses too many symbols |
| `InfBlock.ZeroFill` | lilo/bootheader/common/infblock.c:218-219 | lengths not sent are zero |
| `InfBlock.BitsLookup` | lilo/bootheader/common/infblock.c:239-243 | a lookup in the bit length table finds the length symbol at the stream position |
| `InfBlock.FillLengths` | lilo/bootheader/common/infblock.c:267-270 | enters a run of equal lengths and leaves the others |
| `InfBlock.CaseLengths` | lilo/bootheader/common/infblock.c:233-273 | reads one code length symbol with its repeat count as the machine does |
| `InfBlock.CaseBuild` | lilo/bootheader/common/infblock.c:274-300 | builds both codes' tables as the machine says |
| `InfBlocks.RunLater` | lilo/bootheader/common/infblock.c:122-328 | a run never comes back to a state |
| `InfBlocks.InflateBlocks` | lilo/bootheader/common/infblock.c:106-329 | all block modes together are a run of the machine; leaves only for lack of input or room, at the end with everything delivered, or at an error |
| `Inflate.ReachesFinish` | lilo/bootheader/common/inflate.c:188-202 | the machine ends or waits in one state, however it got its input |
| `Inflate.OutputGrows` | lilo/bootheader/common/inflate.c:188-202 | more input only adds to the output |
| `Inflate.OutcomeIsOutput` | lilo/bootheader/common/inflate.c:188-202 | what was delivered is the start of the output of the input so far, and all of it unless output space ran out; verdict and position are fixed by the input |
| `Inflate.OutcomeIsFilled` | lilo/bootheader/common/inflate.c:188-202 | with so much room a call delivers as much of the output as fits |
| `Inflate.ChunkingIrrelevant` | lilo/bootheader/common/inflate.c:188-202 | any two ways of cutting the same input and the output space into calls deliver the same, with the same verdict at the same stream position, as long as neither ends for want of output space; and of any two the deliveries agree as far as both go |
| `Inflate.Decode` | lilo/bootheader/common/inflate.c:118-234 | one call delivers exactly what fits of the output of the input so far; its outcome, the modes it leaves, and why it waits |
| `Inflate.DecodeCalls` | lilo/bootheader/common/inflate.c:118-234 | any series of calls delivers exactly what the output of the input they were given fills of their rooms; after an error that is all of the output if and only if what was left had room in the call that met the error; at the end of the stream the unused bytes are still in the input |
| `LostOutput.Lose` | lilo/bootheader/common/inflate.c:188-202 | seven bytes of input decoded with no room: the error is reported, and the byte decoded before it is never delivered |
| `Inflate.BlocksReset` | lilo/bootheader/common/infblock.c:69-84 | forgets where decoding was |
| `RfcNumbers.DistanceNext` | lilo/bootheader/common/inftrees.c:46-54 | the distances of the symbols of section 3.2.5 of RFC 1951 follow each other without a gap from 1 to 32768 |
| `RfcNumbers.LengthNext` | lilo/bootheader/common/inftrees.c:39-45 | so do the lengths, but for the last symbol |
| `RfcNumbers.LengthEnds` | lilo/bootheader/common/inftrees.c:39-45 | they go from 3 to 258, which the last symbol has once more, with no extra bits |
| `RfcNumbers.DistanceOnce` | lilo/bootheader/common/inftrees.c:46-54 | each distance from 1 to 32768 belongs to one symbol only, with one value of its extra bits |
| `RfcNumbers.LengthOnce` | lilo/bootheader/common/inftrees.c:39-45 | so does each length from 3 to 258, but that 258 also has symbol 285 |
| `RfcNumbers.DistanceList` | lilo/bootheader/common/inftrees.c:46-54 | the decoder's lists of distances hold these numbers: 0 extra bits for the first four symbols, then half the symbol less one |
| `RfcNumbers.LengthList` | lilo/bootheader/common/inftrees.c:39-45 | likewise its lists of lengths: 0 extra bits for the first eight symbols and the last, then a quarter of the symbol's place less one |
| `RfcNumbers.FixedLiteralCode` | lilo/bootheader/common/inftrees.c:392-399 | the fixed code of literals and lengths has the codes that section 3.2.6 lists, and their lengths |
| `RfcNumbers.FixedDistanceCode` | lilo/bootheader/common/inftrees.c:406-407 | the fixed distance codes are the symbols themselves in five bits |
| `RfcNumbers.OrderIs` | lilo/bootheader/common/infblock.c:20-21 | the decoder enters bit length code lengths in the order of section 3.2.7 |
| `RfcNumbers.RepeatsAre` | lilo/bootheader/common/infblock.c:251-255 | the decoder repeats code lengths as often as the symbols 16, 17 and 18 say there |
| `RfcNumbers.RepeatRanges` | lilo/bootheader/common/infblock.c:251-255 | these are 3 to 6, 3 to 10 and 11 to 138 times |
| `Rfc.FirstSymbolIs` | lilo/bootheader/common/infcodes.c:81-114 | the machine's symbol is the one whose code starts the stream |
| `Rfc.DistanceReads` | lilo/bootheader/common/infcodes.c:123-150 | a distance from 1 to 32768 is read if and only if the stream has its one symbol with its one value of extra bits, whatever the code |
| `Rfc.LengthReads` | lilo/bootheader/common/infcodes.c:81-121 | a length from 3 to 258 is read if and only if the stream has its symbol and extra bits, or symbol 285 for 258, and a distance after it |
| `Rfc.MatchRange` | lilo/bootheader/common/infcodes.c:81-150 | no other lengths and distances are ever read |
| `Rfc.LiteralLevels` | lilo/bootheader/common/infcodes.c:81-114 | looking up level by level ends with the symbol's entry and drops its bits, if all the bits looked at are there, and otherwise waits |
| `Rfc.CopyRun` | lilo/bootheader/common/infcodes.c:152-165 | a copy appends, byte by byte, the byte a distance back |
| `Rfc.CopyIsOutput` | lilo/bootheader/common/infcodes.c:153-157 | the bytes copied are those that the distance means, all of them output of this stream, if and only if the distance is at most the window and at most the number of bytes put out |
| `Rfc.EmitIsRfc` | lilo/bootheader/common/infcodes.c:152-165 | then the decoder appends what section 3.2.3 of RFC 1951 says |
| `Rfc.TokenStep` | lilo/bootheader/common/infcodes.c:62-170 | from the start of a symbol the machine does what sections 3.2.5 and 3.2.6 of RFC 1951 say is encoded there, in their own numbers and for every pair of codes, if the bits it looks at are there; these are at most eight more than the symbol has; without them it waits |
| `Rfc.BlockRun` | lilo/bootheader/common/infcodes.c:40-195 | over the data of a whole block the machine's output, position and error are those of the RFC's reading, as long as it looks at no bit beyond the input and all distances are allowed |
| `Rfc.LengthsRun` | lilo/bootheader/common/infblock.c:233-273 | the code lengths of a dynamic block are those of section 3.2.7 of RFC 1951, repeats across the two codes included, with the same errors |
| `RfcStream.Counts` | lilo/bootheader/common/infblock.c:193-210 | the decoder takes the three counts of a dynamic block, of 5, 5 and 4 bits, from 14 bits, and refuses more than 286 or 30 symbols |
| `RfcStream.LengthTwice` | lilo/bootheader/common/infblock.c:166-175 | it takes the length of a stored block and its complement from 32 bits |
| `RfcStream.BitLengthsAt` | lilo/bootheader/common/infblock.c:212-219 | the length sent at place `i` is that of the symbol at place `i` of the order, and lengths not sent are 0 |
| `RfcStream.StreamRun` | lilo/bootheader/common/infblock.c:122-328 | block by block, stored, fixed and dynamic, the machine comes where the RFC's reading of any first part of the stream comes, or waits if it looks beyond the input |
| `RfcStream.OutputIsRfc` | lilo/bootheader/common/infblock.c:122-328 | if the bits looked at are all there, the output of a stream is what sections 3.2.3 to 3.2.7 of RFC 1951 say it decodes to, with the same end and the same errors, and all there is of it where input is cut off; a distance that is not allowed is no error, and what is in the window there comes out; if they are not all there, the decoder waits with a first part of the output |
| `RfcStream.DoneExactly` | lilo/bootheader/common/infblock.c:122-328 | over a stream with allowed distances the decoder gets to the end if and only if the stream ends and every bit it looks at is there, for which one more byte always suffices |
| `RfcStream.OneByteBehind` | lilo/bootheader/common/infcodes.c:81-84 | whatever can be read from the input without its last byte has been put out |
| `RfcStream.StreamLookedBound` | lilo/bootheader/common/infcodes.c:81-84 | the decoder looks at most eight bits beyond what was read |
| `RfcStream.WindowIrrelevant` | lilo/bootheader/common/infcodes.c:152-165 | as long as distances are allowed, the output does not depend on what was in the window |
| `RfcStream.WindowShows` | lilo/bootheader/common/infcodes.c:153-157 | at a distance beyond the first byte the decoder puts out a byte that was in the window before |
| `RfcLimits.CompleteWaits` | lilo/bootheader/common/infcodes.c:81-84 | five bytes that are a complete stream, for the end of which the decoder waits |
| `RfcLimits.BackShows` | lilo/bootheader/common/infcodes.c:153-157 | three bytes that start with a copy: the last byte of the window comes out three times, without an error |
| `FtSpace.Cxt.NodeUpdateAfter` | lilo/bootheader/ps3/flatdevtree.c:79-89 | moves exactly the nodes at or after an address |
| `FtSpace.Cxt.NodeUpdateBefore` | lilo/bootheader/ps3/flatdevtree.c:67-77 | moves exactly the nodes before an address |
| `FtLayout.StructAfterOpens` | lilo/bootheader/ps3/flatdevtree.c:212-227 | sliding the rest of the structure makes or closes a gap; other regions, names and nodes keep their meaning |
| `FtLayout.StructBeforeOpens` | lilo/bootheader/ps3/flatdevtree.c:228-239 | sliding the start of the structure down makes the same gap |
| `FtLayout.StringsAfterOpens` | lilo/bootheader/ps3/flatdevtree.c:212-227 | sliding the strings up makes room before the first, and the anchor follows |
| `FtLayout.StringsToEndSame` | lilo/bootheader/ps3/flatdevtree.c:262-269 | moving the strings to the end of the buffer changes nothing one can see |
| `FtLayout.ReallocatedSame` | lilo/bootheader/ps3/flatdevtree.c:290-307 | moving the whole buffer changes nothing one can see, except that the current position is left behind |
| `FtLayout.ReorderedSame` | lilo/bootheader/ps3/flatdevtree.c:138-184 | copying the regions in any order to a new buffer changes nothing one can see |
| `FtSpace.Cxt.Shuffle` | lilo/bootheader/ps3/flatdevtree.c:204-241 | uses up free space after or before a region, and fails exactly if there is not enough on either side |
| `FtSpace.Cxt.Reorder` | lilo/bootheader/ps3/flatdevtree.c:138-184 | puts the regions in order with the room asked for, or changes nothing if the allocator returns nothing |
| `FtSpace.Cxt.MakeSpace` | lilo/bootheader/ps3/flatdevtree.c:243-335 | makes room in structure or strings, with the tree unchanged otherwise; fails if and only if the allocator is asked and returns nothing, and then changes nothing; for strings the address handed back is right exactly if they need not be moved up |
| `FtReserve.MakeReserve` | lilo/bootheader/ps3/flatdevtree.c:243-335 | makes room in the reserve map, with everything else as it was but the current position; in a blob in order that succeeds if and only if there is room before the map or, once the strings are at the end, above the structure, and the allocator is not asked |
| `FtReserve.EntryOf` | lilo/bootheader/ps3/flatdevtree.c:585-587 | an entry is read back as its address and size, the high words first |
| `FtReserve.EntryAdded` | lilo/bootheader/ps3/flatdevtree.c:451-459 | a map with an entry before its end has just that entry more, unless it is all zeros, which ends the map |
| `FtReserve.AddRsvmap` | lilo/bootheader/ps3/flatdevtree.c:574-590 | adds just that entry, with nothing else changed but the current position; succeeds exactly if room can be made |
| `FtBlob.BytesAre` | lilo/bootheader/ps3/flatdevtree.c:337-341 | a word is stored with its high byte first |
| `FtTokens.TokenBytes` | lilo/bootheader/ps3/flatdevtree.c:337-377 | the bytes of each token: its tag as a number, then name, or size, offset and value, then zeros up to the next word |
| `FtTokens.NextLocal` | lilo/bootheader/ps3/flatdevtree.c:100-132 | what follows a token does not change how it is read |
| `FtTokens.EncodeNext` | lilo/bootheader/ps3/flatdevtree.c:337-355 | a token that was written is read back |
| `FtTokens.ReadsSplice` | lilo/bootheader/ps3/flatdevtree.c:337-355 | replacing some tokens by others leaves the tokens before and after |
| `FtNames.NameIs` | lilo/bootheader/ps3/flatdevtree.c:116-121 | a property whose offset leads to the bytes of a name and then a zero has that name |
| `FtNames.NodeSurvives` | lilo/bootheader/ps3/flatdevtree.c:67-89 | when tokens are replaced, a node's position moves with it, and its number with the nodes that come before it |
| `FtNames.NameAdded` | lilo/bootheader/ps3/flatdevtree.c:403-416 | a string put before the others changes no property's name |
| `FtNames.Spliced` | lilo/bootheader/ps3/flatdevtree.c:418-436 | replacing tokens replaces just their part of the flattened tree |
| `FtEdit.FindStringIs` | lilo/bootheader/ps3/flatdevtree.c:387-400 | a string found is the one looked for |
| `FtEdit.LookupString` | lilo/bootheader/ps3/flatdevtree.c:387-400 | finds the first of the strings that is equal, and only then succeeds |
| `FtEdit.MapString` | lilo/bootheader/ps3/flatdevtree.c:403-416 | succeeds if and only if the allocator does not fail; on success the offset returned names the string and nothing else has changed, if and only if the string is there already or fits without moving strings up; otherwise its bytes are over the end of the structure and the offset names nothing |
| `FtEdit.OverwrittenLost` | lilo/bootheader/ps3/flatdevtree.c:411-415 | after a string went over the end of the structure no tokens lead to an end tag, but for the one case in which the last byte is replaced by itself |
| `FtLost.Lose` | lilo/bootheader/ps3/flatdevtree.c:403-416 | from a root-only tree two names, of 1 and of 1034 bytes, leave a structure that cannot be read, and are reported as successes |
| `FtEdit.PutBin` | lilo/bootheader/ps3/flatdevtree.c:343-355 | writes the data and zeros up to the next word |
| `FtEdit.PutProp` | lilo/bootheader/ps3/flatdevtree.c:431-434 | writes a property's token |
| `FtEdit.FtProp` | lilo/bootheader/ps3/flatdevtree.c:418-436 | succeeds if and only if the allocator does not fail; adds a property at the current position: the flattened tree has just that item more, and all nodes handed out stay the same nodes; but if its name went over the end of the structure, in a buffer that stays where it is, no tokens with names can be read from the structure afterwards |
| `FtEdit.PropLost` | lilo/bootheader/ps3/flatdevtree.c:427-434 | a property added after its name went over the end of the structure does not restore that; and where the end came out as it was, the property has no name |
| `FtEdit.FtNext` | lilo/bootheader/ps3/flatdevtree.c:100-132 | reads the tokens one after the other and stops at the end tag |
| `FtEdit.Overwrite` | lilo/bootheader/ps3/flatdevtree.c:892-903 | replaces a property's value by one of any size |
| `FtEdit.SetMeans` | lilo/bootheader/ps3/flatdevtree.c:885-906 | setting a property where the search stops is setting it in the flattened tree |
| `FtEdit.SetProp` | lilo/bootheader/ps3/flatdevtree.c:867-908 | succeeds if and only if there is such a node, its properties have an end and the allocator does not fail; on success the flattened tree is the old one with that property of that node set, and every node handed out is the same node, or, if the name went over the end of the structure, there is no structure any more; on failure the tree is unchanged |
| `FtTree.FlatOrder` | lilo/bootheader/ps3/flatdevtree.c:100-132 | a node is flattened to its start with its name, its properties in order, its children in order, and its end |
| `FtTree.SetPropsIs` | lilo/bootheader/ps3/flatdevtree.c:885-906 | a property is set in the place of the first of that name, or after the others if there is none |
| `FtTree.SetPropRefines` | lilo/bootheader/ps3/flatdevtree.c:867-908 | setting a property in the flattened form is setting it in the tree |
| `FtTree.AddChildRefines` | lilo/bootheader/ps3/flatdevtree.c:942-977 | adding an empty node before a node's end is giving that node a new last child |
| `FtTree.SetPropFlat` | lilo/bootheader/ps3/flatdevtree.c:885-906 | the flattened tree after setting a property of node number `m` is the tree with it set, flattened |
| `FtTree.AddChildFlat` | lilo/bootheader/ps3/flatdevtree.c:956-974 | likewise for a new child |
| `FtPaths.OneTree` | lilo/bootheader/ps3/flatdevtree.c:100-132 | a flattened form is that of one tree only |
| `FtPaths.SetPropKeeps` | lilo/bootheader/ps3/flatdevtree.c:867-908 | setting a property leaves all nodes at their paths, with their names, and all others with their properties |
| `FtPaths.AddChildKeeps` | lilo/bootheader/ps3/flatdevtree.c:942-977 | adding a child leaves all nodes at their paths, as they are, and raises their numbers from where the child comes in |
| `FtPaths.AddChildThere` | lilo/bootheader/ps3/flatdevtree.c:942-977 | the child is at the end of its parent's children |
| `FtPaths.NewNumberIs` | lilo/bootheader/ps3/flatdevtree.c:956-972 | where the search for a node's end stops, as many nodes have started as come before the child in the tree |
| `FtCreate.GetPhandle` | lilo/bootheader/ps3/flatdevtree.c:39-56 | hands a node out under the number it has, or a new one, or none if the table is full |
| `FtCreate.InsertNode` | lilo/bootheader/ps3/flatdevtree.c:357-377 | writes an empty node; without memory the end written over a node's end changes nothing |
| `FtCreate.CreateNode` | lilo/bootheader/ps3/flatdevtree.c:942-977 | done if and only if there is such a parent, it has an end and another name, and the allocator does not fail, whatever its children are called; the new node is the last child of the parent, and the number returned is its own, or none exactly if all are used up |
| `FtCreate.SetPropTree` | lilo/bootheader/ps3/flatdevtree.c:867-908 | reading the edited blob gives the old tree with just that property set |
| `FtCreate.AddNodeTree` | lilo/bootheader/ps3/flatdevtree.c:942-977 | reading the edited blob gives the old tree with that child last under the parent |
| `FtRun.EditGood` | lilo/bootheader/ps3/flatdevtree.c:867-977 | after every edit the blob reads as the edited tree |
| `FtRun.EditKeeps` | lilo/bootheader/ps3/flatdevtree.c:67-89 | after every edit each node handed out is at the same path with the same name |
| `FtRun.NewStands` | lilo/bootheader/ps3/flatdevtree.c:968-972 | a new node's number stands for the last child of its parent; siblings of the same name do not matter |
| `FtRun.RunKeeps` | lilo/bootheader/ps3/flatdevtree.c:39-89 | whatever edits follow each other, failing ones included, each number stands for the node it was given for, by its path in the tree |
| `FtRun.RunIsEdited` | lilo/bootheader/ps3/flatdevtree.c:867-977 | after a run of edits the blob reads as the tree they make one after the other |
| `FtRun.TreeSearchable` | lilo/bootheader/ps3/flatdevtree.c:885-906 | in a tree the search for a property always stops |
| `FtRun.TreeCloses` | lilo/bootheader/ps3/flatdevtree.c:956-974 | in a tree a child can be added to any node |
| `FtEnd.HeaderDescribes` | lilo/bootheader/ps3/flatdevtree.c:624-630 | a header with the total size, the offsets of structure, strings and reserve map, and the size of the strings at bytes 4, 8, 12, 16 and 32 describes the blob |
| `FtEnd.AdjustedItems` | lilo/bootheader/ps3/flatdevtree.c:478-492 | with the anchor added to every offset, every property keeps its name |
| `FtEnd.AdjustStringOffsets` | lilo/bootheader/ps3/flatdevtree.c:478-492 | adds the same to all string offsets and changes nothing else |
| `FtEnd.EndTree` | lilo/bootheader/ps3/flatdevtree.c:597-631 | the finished blob has its regions one after the other, the strings less than 8 bytes after the structure, and the same tree; its header has the total size and the offsets of structure, strings and map in the words at bytes 4, 8, 12 and 16 and the size of the strings at 32, and is otherwise as it was; there is always room for it |
| `FtEnd.RoomToAlign` | lilo/bootheader/ps3/flatdevtree.c:613-617 | aligning the strings needs no more room than there is in a buffer that ends at a multiple of 8 |
| `FtEnd.Open` | lilo/bootheader/ps3/flatdevtree.c:535-572 | takes the regions from the words at bytes 8, 12, 16 and 32 of the header and their own ends; refuses versions below 16, or if there is no memory for nodes, and nothing else |
| `FtEnd.ReopenLayout` | lilo/bootheader/ps3/flatdevtree.c:451-475 | scanning the reserve map and the structure finds their sizes again |
| `FtEnd.Reopened` | lilo/bootheader/ps3/flatdevtree.c:535-572 | finishing a tree and opening the result gives the same tree |
| `Ext2Map.CallsAtLists` | yaboot/second/e2fsprogs_block.c:32-257 | the calls for a pointer of any level list the mapped blocks below it, each once, in order, with their logical numbers |
| `Ext2Map.InodeCallsList` | yaboot/second/e2fsprogs_block.c:338-365 | the calls for an inode with a non-negative count are exactly its mapped blocks in increasing order, whatever holes there are at any level |
| `Ext2Map.Reported` | yaboot/second/e2fsprogs_block.c:40-104 | a callback that asks for it is given each indirect block once, with minus its level, before what is below it or after that |
| `Ext2Map.DataOnly` | yaboot/second/e2fsprogs_block.c:40-104 | any other is given data blocks only |
| `Ext2Map.NeverAborts` | yaboot/second/e2fsprogs_block.c:338-365 | a callback that never aborts gets all calls |
| `Ext2Map.UntilConcat` | yaboot/second/e2fsprogs_block.c:75-84 | calls stop at the first that aborts, across all levels |
| `Ext2Iterate.Context.IterateInd` | yaboot/second/e2fsprogs_block.c:32-104 | makes the calls of an indirect block; for one out of range the logical number does not advance |
| `Ext2Iterate.Context.IterateDind` | yaboot/second/e2fsprogs_block.c:106-180 | likewise for double indirection |
| `Ext2Iterate.Context.IterateTind` | yaboot/second/e2fsprogs_block.c:182-257 | likewise for triple indirection |
| `Ext2Iterate.Context.BlockIterate` | yaboot/second/e2fsprogs_block.c:259-391 | on an inode whose indirect blocks are all in range makes exactly its calls up to the first abort; reports an error only if one is not |
| `Ext2File.ByteAtIs` | yaboot/second/fs_ext2.c:331-364 | byte `p` of a file is byte `p` modulo the block size of the block mapped at `p` divided by it, or zero |
| `Ext2File.BlocksAreData` | yaboot/second/fs_ext2.c:189-203 | blocks that follow each other in the file and on the disk can be read at once |
| `Ext2File.HoleIsData` | yaboot/second/fs_ext2.c:260-293 | between mapped blocks a file has zeros |
| `Ext2Read.Reader.ReadDumpRange` | yaboot/second/fs_ext2.c:180-217 | puts the pending blocks into the buffer, of the last one perhaps only a part |
| `Ext2Read.Reader.FillHole` | yaboot/second/fs_ext2.c:260-293 | puts the zeros of a hole into the buffer |
| `Ext2Read.Reader.ReadIterator` | yaboot/second/fs_ext2.c:219-329 | one callback: skips, extends the pending range, or reads up to its block, with all bytes so far right |
| `Ext2Read.Reader.Read` | yaboot/second/fs_ext2.c:331-364 | the buffer receives exactly the file's bytes from the position on, holes as zeros; their number is the smaller of the size and the distance to the end of the last mapped block; the rest of the buffer is untouched and the position advances by that number |
| `Ext2ReadFile.MapDirect` | yaboot/second/e2fsprogs_block.c:338-345 | the first twelve blocks of a file are those listed in its inode |
| `Ext2ReadFile.MapSingle` | yaboot/second/e2fsprogs_block.c:346-352 | the next are those listed in the indirect block that pointer 12 gives |
| `Ext2ReadFile.MapDouble` | yaboot/second/e2fsprogs_block.c:353-359 | the next those of the double indirect block of pointer 13, `limit` times `limit` of them |
| `Ext2ReadFile.MapTriple` | yaboot/second/e2fsprogs_block.c:360-365 | the last those of the triple indirect block of pointer 14 |
| `Ext2ReadFile.FileByteIs` | yaboot/second/fs_ext2.c:331-364 | a byte of the file is found by division in the block that so leads to |
| `Ext2ReadFile.ReadFile` | yaboot/second/fs_ext2.c:331-364 | reading the file of an inode, iteration included: each byte is that of the block its pointers map there, directly or through up to three levels, or zero |
| `Ext2ReadFile.BlocksIs` | yaboot/second/e2fsprogs_block.c:338-365 | a file ends with its last mapped block |
| `Ext2Namei.Namei.FollowLink` | yaboot/second/e2fsprogs_namei.c:22-62 | follows a link as the recursive resolver does, and returns |
| `Ext2Namei.Namei.DirNamei` | yaboot/second/e2fsprogs_namei.c:70-106 | resolves all parts of a path name but the last, from the root if it starts with a slash and from `base` otherwise |
| `Ext2Namei.Namei.OpenNamei` | yaboot/second/e2fsprogs_namei.c:108-143 | resolves a path name, a trailing slash included, from the root if it starts with a slash and from `base` otherwise |
| `Ext2Namei.Namei.NameiFollow` | yaboot/second/e2fsprogs_namei.c:164-181 | resolves a path name: one that starts with a slash from the root, without that slash, and any other from the current directory |
| `Ext2Namei.Namei.NameiNoFollow` | yaboot/second/e2fsprogs_namei.c:145-162 | likewise, without following a link at the end |
| `Ext2Path.SplitSlash` | yaboot/second/e2fsprogs_namei.c:87-95 | the parts of a path name are what is between its slashes |
| `Ext2Path.AbsoluteName` | yaboot/second/e2fsprogs_namei.c:82-86 | a name that starts with a slash resolves to the same from every directory, and to what the name without that slash resolves to from the root |
| `Ext2Path.RelativeName` | yaboot/second/e2fsprogs_namei.c:82-86 | any other name is resolved from the directory given, and resolution starts there |
| `Ext2Path.LinkTarget` | yaboot/second/e2fsprogs_namei.c:46-58 | the target of a link is resolved from the root if it starts with a slash, and otherwise from the directory that the link is in |
| `Ext2Path.ResolverIsMachine` | yaboot/second/e2fsprogs_namei.c:22-143 | resolution returns what a machine without recursion or limit ends with, on every file system, cyclic links included, unless that gets into a seventh nested link |
| `Ext2Path.LoopExactly` | yaboot/second/e2fsprogs_namei.c:42-44 | a loop is reported exactly if a seventh nested link is reached |
| `Ext2Disk.AddressIs` | yaboot/second/e2fsprogs_inode.c:519-529 | inodes count from 1, `perGroup` to a group; each group's are one after the other from the start of the group's table on, `inodeSize` apart |
| `Ext2Disk.ByteOnIs` | yaboot/second/e2fsprogs_inode.c:523-529 | a byte of the disk is found by dividing its address by the block size |
| `Ext2Disk.Apart` | yaboot/second/e2fsprogs_inode.c:519-529 | two inodes do not share bytes of the disk |
| `Ext2Disk.WriteDecode` | yaboot/second/e2fsprogs_inode.c:638-680 | after an inode has been written it reads back, and every other inode is as before |
| `Ext2Disk.PatchWrites` | yaboot/second/e2fsprogs_inode.c:659-674 | writing a block with some bytes replaced puts just these on the disk |
| `Ext2Inode.DirectReadIs` | yaboot/second/e2fsprogs_inode.c:519-571 | the inode read is the 128 bytes at its place in the table of its group, and it is missing exactly if the group has no table |
| `Ext2Inode.InodeCache.CreateIcache` | yaboot/second/e2fsprogs_inode.c:58-88 | starts with an empty cache |
| `Ext2Inode.InodeCache.ReadInode` | yaboot/second/e2fsprogs_inode.c:476-571 | returns what decoding the current disk gives, with the same errors, by `Ext2Inode.DirectReadIs` the bytes at that inode's place: cache and buffer are transparent |
| `Ext2Inode.InodeCache.WriteInode` | yaboot/second/e2fsprogs_inode.c:580-687 | puts the inode's bytes at its place on the disk and nowhere else and keeps the cache transparent; on a read-only file system the disk is unchanged but the cache shows the new inode |
| `Ext2InodeRun.DoAll` | yaboot/second/e2fsprogs_inode.c:476-687 | any run of reads and writes gives the answers of a plain list of inodes, and leaves that list on the disk |
| `Ext2InodeRun.ReadsLast` | yaboot/second/e2fsprogs_inode.c:476-687 | each read gives what the last write of that inode wrote, or what was on the disk |
| `ReiserTree.PathSplits` | yaboot/second/fs_reiserfs.c:487-532 | a path splits the leaves into those before it, its own and those after it |
| `ReiserTree.Advance` | yaboot/second/fs_reiserfs.c:487-532 | advancing at the lowest level possible and taking first children from there leads to the next leaf |
| `ReiserTree.LessIs` | yaboot/second/fs_reiserfs.c:582-586 | keys are ordered by directory, then object, then offset, then type; it is a total order |
| `ReiserTree.KeysAre` | yaboot/second/fs_reiserfs.c:475-547 | the list of all keys is that of the keys of the items, one by one |
| `ReiserTree.SortedNumbers` | yaboot/second/fs_reiserfs.c:574-590 | in such an order directories do not decrease, and within one directory objects do not |
| `ReiserTree.OrderedExactly` | yaboot/second/fs_reiserfs.c:574-590 | a tree is in order at every node if and only if its items come in the order of their keys and each key of an inner node is behind those on its left and not behind those on its right |
| `ReiserTree.HasKey` | yaboot/second/fs_reiserfs.c:598-616 | an object has stat data in a tree if and only if its key is among those of the items |
| `ReiserTree.SearchStep` | yaboot/second/fs_reiserfs.c:574-597 | in a tree in order an object is below the child that its key leads to, or nowhere below the node |
| `ReiserFs.Reiser.ReadTreeNode` | yaboot/second/fs_reiserfs.c:436-470 | gives the node's content, from the cache or not; a node of the wrong level is an error that leaves it in the cache under another block's number |
| `ReiserFs.Reiser.SearchStat` | yaboot/second/fs_reiserfs.c:559-622 | in a tree whose items come in the order of their keys, separated by those of inner nodes, finds an object's stat data, key (`dir`, `obj`, 0, 0) in a node of level 1, exactly if it is among the items, and sets the cursor there |
| `ReiserFs.Reiser.Up` | yaboot/second/fs_reiserfs.c:488-504 | finds the lowest level with another child |
| `ReiserFs.Reiser.Leftmost` | yaboot/second/fs_reiserfs.c:517-532 | takes the next child there and first children below |
| `ReiserFs.Reiser.NextKey` | yaboot/second/fs_reiserfs.c:475-547 | goes on to the next item in tree order; after the last reports the largest key |
| `ReiserFs.Reiser.AllItems` | yaboot/second/fs_reiserfs.c:475-547 | items before the cursor, the current one and those still to come are exactly the tree's items in order |
| `ReiserFs.Reiser.NextKeys` | yaboot/second/fs_reiserfs.c:475-547 | going on any number of times comes to just that many of the following items, in order, and after the last to the largest key |
| `ReiserLog.StartNext` | yaboot/second/fs_reiserfs.c:212-212 | the next descriptor, found by wrapping step by step, is where the lengths of all earlier transactions put it |
| `ReiserLog.StartIs` | yaboot/second/fs_reiserfs.c:212-212 | each transaction takes its length and two blocks more, modulo the size of the log |
| `ReiserLog.NewestAt` | yaboot/second/fs_reiserfs.c:165-201 | the newest copy of a block is as many blocks after the descriptor of the last transaction that lists it as its place there says, modulo the size of the log; a block in none is read from home |
| `ReiserLog.NewestIsReplay` | yaboot/second/fs_reiserfs.c:151-217 | reading a block where its newest copy is gives what replaying the log would have put at its home, if and only if the newest transaction that lists it has only one content for it |
| `ReiserLog.OnceIsReplay` | yaboot/second/fs_reiserfs.c:151-217 | a block that no transaction lists twice is read as replaying the log would leave it |
| `ReiserLog.TwiceInOne` | yaboot/second/fs_reiserfs.c:169-176 | a block listed twice in one transaction is read from its first copy, unlike after a replay |
| `ReiserJournal.Journal.Store` | yaboot/second/fs_reiserfs.c:277-290 | copies a transaction's length and block numbers, from descriptor and commit block, into the table |
| `ReiserJournal.Journal.Init` | yaboot/second/fs_reiserfs.c:242-294 | the table lists as many transactions as fit, then an end mark if some do not |
| `ReiserJournal.Journal.SearchCached` | yaboot/second/fs_reiserfs.c:165-176 | finds the first place of a block in a cached transaction and goes on to the next |
| `ReiserJournal.Journal.SearchLogged` | yaboot/second/fs_reiserfs.c:177-201 | finds it in a transaction that is on disk only |
| `ReiserJournal.Journal.BlockRead` | yaboot/second/fs_reiserfs.c:151-217 | the block is read from its copy in the latest transaction that lists it, else from home, whichever transactions are cached and wherever the log wraps |
| `AllocTable.AlignUp` | lilo/bootheader/ps3/simple_alloc.c:45-45 | rounds up to the granularity; sizes within one granule of the largest word wrap to 0 |
| `AllocTable.AlignedDivides` | lilo/bootheader/ps3/simple_alloc.c:45-45 | rounded means divisible by the granularity |
| `AllocTable.BlockInside` | lilo/bootheader/ps3/simple_alloc.c:48-57 | blocks are aligned and inside the heap |
| `AllocTable.BlocksDisjoint` | lilo/bootheader/ps3/simple_alloc.c:48-57 | blocks are pairwise disjoint |
| `AllocTable.MallocIs` | lilo/bootheader/ps3/simple_alloc.c:37-66 | when an allocation fails, and that otherwise it takes one block that was not handed out, aligned, inside the heap and large enough unless the size wrapped |
| `AllocTable.MallocFirst` | lilo/bootheader/ps3/simple_alloc.c:48-57 | it is the first block freed that is large enough, else the next one that was never used, with just the size asked for, rounded |
| `AllocTable.MallocValid` | lilo/bootheader/ps3/simple_alloc.c:37-66 | used entries stay a prefix of the table with adjacent extents, and their sizes and what is left make up the heap |
| `AllocTable.FreeValid` | lilo/bootheader/ps3/simple_alloc.c:83-89 | likewise when a block is freed |
| `AllocTable.ReallocMoves` | lilo/bootheader/ps3/simple_alloc.c:116-120 | a block that grows keeps its content; every other block and all other memory stay |
| `AllocTable.ReallocLoses` | lilo/bootheader/ps3/simple_alloc.c:116-120 | a block that cannot grow is freed nevertheless, and its content copied to address zero |
| `AllocTable.WrappedRequest` | lilo/bootheader/ps3/simple_alloc.c:42-57 | a size that wraps is granted in any table in order if and only if some entry is not handed out, and its block is always smaller than asked for |
| `AllocTable.PointerNames` | lilo/bootheader/ps3/simple_alloc.c:68-81 | while no block is empty, a pointer names the block it was returned for |
| `AllocTable.RunKeeps` | lilo/bootheader/ps3/simple_alloc.c:37-120 | in every run a block handed out stays at its place with its content, as long as no operation names it, stores into it, wraps, or fails to resize near address zero |
| `AllocTable.RunNonempty` | lilo/bootheader/ps3/simple_alloc.c:37-120 | in runs whose sizes do not wrap no block is ever empty |
| `SimpleAlloc.Allocator.constructor` | lilo/bootheader/ps3/simple_alloc.c:126-150 | starts with an unused table and the whole heap left |
| `SimpleAlloc.Allocator.SimpleMalloc` | lilo/bootheader/ps3/simple_alloc.c:37-66 | the table scan takes the first entry that fits |
| `SimpleAlloc.Allocator.SimpleFindEntry` | lilo/bootheader/ps3/simple_alloc.c:68-81 | finds the first block handed out at a pointer |
| `SimpleAlloc.Allocator.SimpleFree` | lilo/bootheader/ps3/simple_alloc.c:83-89 | clears just that block's mark |
| `SimpleAlloc.Allocator.SimpleRealloc` | lilo/bootheader/ps3/simple_alloc.c:97-120 | all cases of resizing, the failing one included |

## Left out

- HuftBuild.Build: the count, offset, value and stack arrays of the C function are sequence variables, except the value array; table space and value array are arrays updated in place
- Inflate.Decode: the zlib wrapper (header, preset dictionary, Adler-32 check) and packet flush; streams are raw DEFLATE
- Inflate.Decode: whether a call that has to wait returns that it made progress or not; both are `Waiting`
- Inflate.DecodeCalls: successive input areas are one sequence, because the decoder may hand back a byte of an earlier area
- InfUtil.Inflater.constructor: the local copies between LOAD and UPDATE are the fields themselves, and the window is one array of the size asked for
- InflateTrees.TreesFixed: the two work areas that it uses one after the other are one area of 288 words
- FtReserve.MakeReserve: blobs in order with room between map and structure, where nodes would be moved by too much; reordering leaves none there, and making room keeps it so; and an empty structure
- FtEdit.MapString: a string so long that it would be written before the start of the buffer
- FtEdit.FtProp: names for which strings would have to be moved up in a buffer that moves; then the current position is left behind in memory given back, and the property written there; and the blob after a failure there
- FtEdit.SetProp: the same, where the property is not there yet
- FtSpace.Cxt.MakeSpace: sizes do not overflow the C types
- FtEnd.EndTree: buffers of 2 GB and more; memory is handed out at multiples of 8
- RfcStream.OutputIsRfc: what follows, in the code lengths of a block, the bit that a code of a single symbol leaves over, which RFC 1951 does not provide for
- Deleting properties, parents of nodes (the genealogy kept by searches), searching by path or value, starting a tree from scratch, copying property values out
- Ext2Read.Reader.Read: short reads and read errors; files of 4 GB and more, which the iteration refuses
- Ext2ReadFile.ReadFile: inodes with an indirect block out of range, for which the iteration gives wrong numbers
- Ext2Iterate.Context.BlockIterate: changes made to block numbers by the callback, iteration over holes (append flag), the HURD translator block, errors when reading an indirect block
- Ext2Inode.InodeCache.ReadInode: inode number 0, buffers of other sizes, byte order, image files; inode scans
- Ext2Namei.Namei.DirNamei: looking up a name in a directory is a function of the file system, errors included
- ReiserFs.Reiser.NextKey: trees deeper than the node cache, and read errors; the tree is well formed
- ReiserJournal.Journal.Init: the test which transactions are valid; their number is given, and the cache has room for at least one word
- ReiserJournal.Journal.BlockRead: that block numbers in the log do not point into the log
- Items of ReiserFS leaves (stat data, directories, file content)
- SimpleAlloc.Allocator.constructor: heaps that do not fit behind the given address
- Disk and firmware input/output: reading a block is a total function; memory handed out by the firmware or the kernel is given by its addresses
