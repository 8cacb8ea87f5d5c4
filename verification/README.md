# Verified models of the SGX SDK's backtrace, allocator and event code

This project models, in Dafny, the parts of the repository with the most intricate logic, and
proves them against independent references.

| modules | what they cover |
|---|---|
| Bits, Arith, Bytes, Wrappers | words as natural numbers: shifts, masks, bit reversal, remainders; options |
| Canonical, Reverse, HuffmanTable, SecondaryTable, InflateTable, FixedCodes | the two-level Huffman table of the zlib decoder, against the canonical codes of section 3.2.2 of RFC 1951 |
| Deflate, BitReader, MatchCopy, Inflate, StoredBlock, ZlibHeader, ZlibStream, Prefix, Conformance | the decoder, against a bit-by-bit reading of RFC 1951 |
| DeflateWriter, BlockWriter, RoundTrip | a writer of zlib streams, whose streams the decoder accepts and restores |
| Adler | the delayed-modulus checksum, against section 8.2 of RFC 1950 |
| AlignSolver, AlignAlloc, AlignLayout | the solver that keeps secrets off certain offsets of a cache line |
| QSort, LineIndex | sorting, and the line index against a linear scan |
| Leb128, DwarfBuf, Abbrevs, AbbrevWriter | DWARF numbers and abbreviation tables |
| LineProgram, LineWriter, LineTable, LineReader | the line number program, against section 6.2.5 of DWARF Version 4 |
| Heap, Freelist, Vector | memory, the free-list allocator and growable vectors |
| Event, Ring, TcsCache | the futex event protocol and the map from TCSs to events, as state machines over all interleavings |

Code that updates state in place is modelled by classes, arrays and loops; each such method is
proved against a specification function, and the properties are proved of that function. C
integers that can wrap around are written with an explicit modulus. System calls, memory
allocation and the addresses the system returns are parameters.

The reference for the decoder reads bit by bit, with two rules as parameters: which bits a stored
block skips, and whether bits that no code begins are read as symbol 0. `Deflate.RFC` has the rules of
RFC 1951 and `BitReader.CODE` those of the decoder, which is proved against them; `Conformance`
compares the two.

Where the code departs from a standard or from what one would expect of it, the model follows the
code. The project then has an input that shows the difference and a condition for when there is none:

| departure | input | condition |
|---|---|---|
| a stored block after a header that ends on a byte boundary | `StoredBlock.PaddingDiffers` | `StoredBlock.PaddingExact` |
| bits that no code begins | `Conformance.UnassignedRead` | `Conformance.InflateSound` |
| an oversubscribed set of code lengths | `InflateTable.InstallsOversubscribed` | `InflateTable.Build` |
| a second zlib stream | `ZlibStream.RefusesSecond` | `ZlibStream.SecondStream` |
| alignment of small objects | `AlignLayout.SmallMisses` | `AlignLayout.PointerAligned` |
| files defined by a line program | `LineProgram.DefineFileDiffers` | `LineProgram.SameRowsExact` |
| relocated line tables | `LineTable.RelocationDrops` | `LineTable.StoredExact` |
| several operations per instruction | `LineProgram.LateDivision` | `LineProgram.AdvanceExact` |
| releasing a vector | `Vector.TailWraps` | `Vector.TailInside` |
| a wait that returns without a set | `Event.StaleWake` | `Event.SettledRunExact` |

The copy of the alignment solver in `sgx_align_struct_attribute/src/layout.rs` uses the same expressions
as the one in `sgx_alloc/src/alignalloc.rs` except for its overflow test, so the solver is modelled once
and `AlignLayout.OverflowTestsAgree` compares the two tests.

`dafny verify dfyconfig.toml` checks the project.

## Model

| member | source | states |
|---|---|---|
| `Canonical.PrefixFree` | sgx_backtrace_sys/libbacktrace/elf.c:1206-1294 | of the codes section 3.2.2 of RFC 1951 assigns to a set of lengths, at most one begins any window of bits: the table never has to choose between two symbols |
| `Canonical.KraftIsLastCode` | sgx_backtrace_sys/libbacktrace/elf.c:1301-1336 | the Kraft sum of the lengths is the value the running code counter of RFC 1951 ends at |
| `Canonical.KraftFits` | sgx_backtrace_sys/libbacktrace/elf.c:1219-1222 | under the Kraft inequality the codes of every length fit in that length, so the per-length count check never refuses such a set |
| `Canonical.CompleteMatches` | sgx_backtrace_sys/libbacktrace/elf.c:2066-2080 | a complete code leaves no window of bits without a code at its front |
| `Canonical.TwoZeros` | sgx_backtrace_sys/libbacktrace/elf.c:1206-1294 | an oversubscribed set has two codes of zeros, the first one and the first that does not fit in its length |
| `Canonical.DecodeFinds` | sgx_backtrace_sys/libbacktrace/elf.c:2066-2080 | reading bit by bit finds the code that begins the window, whatever follows it |
| `Canonical.DecodeMisses` | sgx_backtrace_sys/libbacktrace/elf.c:2066-2080 | reading bit by bit finds nothing when no code begins the window |
| `Reverse.Increment` | sgx_backtrace_sys/libbacktrace/elf.c:1284-1292 | if the code is the reversal of c in j bits, the result is the reversal of c + 1 modulo 2^j |
| `Reverse.Carry` | sgx_backtrace_sys/libbacktrace/elf.c:1321-1328 | propagating a carry from the top adds one to the reversed low bits and leaves the rest of the word |
| `Reverse.Add` | sgx_backtrace_sys/libbacktrace/elf.c:1315-1331 | if the code is the reversal of c in j bits, the result is the reversal of c + count modulo 2^j, and what is left of the count is the part that does not fit in j bits |
| `HuffmanTable.LinkSymbol` | sgx_backtrace_sys/libbacktrace/elf.c:1192-1200 | linking one more symbol keeps, for every length, a chain of exactly the symbols seen so far in increasing order |
| `HuffmanTable.CountLengths` | sgx_backtrace_sys/libbacktrace/elf.c:1179-1201 | succeeds exactly when every length is at most 15; then counts and chains list the symbols of each length in order |
| `HuffmanTable.Fill` | sgx_backtrace_sys/libbacktrace/elf.c:1250-1256 | writes one value to exactly the slots whose low bits are the reversed code and nothing outside the range; succeeds exactly when those slots were free |
| `HuffmanTable.PlaceShort` | sgx_backtrace_sys/libbacktrace/elf.c:1237-1256 | under the Kraft inequality the next code of length j finds its slots free, and installing it keeps the primary table right for all codes so far; in any set without a one-bit symbol 0, success means it is not a second code of zeros |
| `HuffmanTable.PrimaryLength` | sgx_backtrace_sys/libbacktrace/elf.c:1228-1293 | after all codes of a length, the running code is the reversal of the next canonical code and none was refused under the Kraft inequality |
| `HuffmanTable.PrimaryNext` | sgx_backtrace_sys/libbacktrace/elf.c:1206-1294 | moving from length j to j + 1, used or skipped, keeps the running code the reversal of the next canonical code |
| `HuffmanTable.PrimaryPass` | sgx_backtrace_sys/libbacktrace/elf.c:1206-1294 | the running code ends as the reversed ninth counter; under the Kraft inequality nothing is refused, every window begun by a code of at most eight bits has its entry, and every other slot is free; success means, in any set without a one-bit symbol 0, that at most one code so far is all zeros |
| `HuffmanTable.FirstCodes` | sgx_backtrace_sys/libbacktrace/elf.c:1301-1336 | the first code kept for each length from 9 to 15 is the reversal of that length's first canonical code; the leftover check never fires |
| `SecondaryTable.OpenTable` | sgx_backtrace_sys/libbacktrace/elf.c:1376-1390 | opening an empty secondary table keeps all tables apart, all installed codes found and no stray entries |
| `SecondaryTable.FillTable` | sgx_backtrace_sys/libbacktrace/elf.c:1411-1421 | installing a long code keeps every installed code found through the two levels, and nothing else |
| `SecondaryTable.FindTable` | sgx_backtrace_sys/libbacktrace/elf.c:1373-1406 | finds or opens the secondary table of a code's first eight bits; it is wide enough, and under the Kraft inequality fails only for lack of space |
| `SecondaryTable.PlaceLong` | sgx_backtrace_sys/libbacktrace/elf.c:1411-1421 | a long code never collides under the Kraft inequality, and the primary table is not touched |
| `SecondaryTable.SecondaryLength` | sgx_backtrace_sys/libbacktrace/elf.c:1358-1435 | all codes of one length are installed and the space used grows by at most count times 2^(j - 8) |
| `SecondaryTable.SecondaryPass` | sgx_backtrace_sys/libbacktrace/elf.c:1346-1436 | under the Kraft inequality all codes of nine to fifteen bits are installed, or the space they may need exceeds 511 entries; success means, in any set without a one-bit symbol 0, that at most one code is all zeros |
| `SecondaryTable.FillTaken` | sgx_backtrace_sys/libbacktrace/elf.c:1411-1421 | an entry in use stays, and installing a code of zeros needs a free one |
| `InflateTable.TableDecodes` | sgx_backtrace_sys/libbacktrace/elf.c:2066-2080 | a table the two passes leave decodes every window: the symbol whose code begins it and that code's length; where no code does, symbol 0 and eight bits if a longer code shares the first eight, else one |
| `InflateTable.Build` | sgx_backtrace_sys/libbacktrace/elf.c:1165-1443 | every table index is in range; success means valid lengths that obey the Kraft inequality, unless symbol 0 has a one-bit code, and under that inequality a table that decodes every window as the canonical code does; every such set whose secondary tables fit is accepted |
| `InflateTable.AllInstalled` | sgx_backtrace_sys/libbacktrace/elf.c:1228-1435 | when at most one code of zeros could be installed the set obeys the Kraft inequality |
| `InflateTable.InstallsOversubscribed` | sgx_backtrace_sys/libbacktrace/elf.c:1228-1293 | the lengths 1, 1, 2 are installed although they are oversubscribed: the entry of symbol 0 is 0 and reads as free |
| `InflateTable.LongPointer` | sgx_backtrace_sys/libbacktrace/elf.c:1373-1406 | a primary entry is a pointer if and only if a code of more than eight bits starts with its index |
| `FixedCodes.FixedComplete` | sgx_backtrace_sys/libbacktrace/elf.c:1455-1488 | the two fixed codes of section 3.2.6 of RFC 1951 are valid and complete |
| `FixedCodes.FixedLitCodes` | sgx_backtrace_sys/libbacktrace/elf.c:1455-1488 | the fixed literal and length codes are the four ranges that section 3.2.6 of RFC 1951 lists |
| `FixedCodes.FixedDistCodes` | sgx_backtrace_sys/libbacktrace/elf.c:1455-1488 | the fixed distance codes are the numbers of five bits |
| `FixedCodes.FixedTables` | sgx_backtrace_sys/libbacktrace/elf.c:1455-1488 | building the fixed tables cannot fail and gives tables that decode the fixed codes |
| `BitReader.Buffer` | sgx_backtrace_sys/libbacktrace/elf.c:1078-1079 | or-ing a chunk above the buffered bits appends its bits to theirs |
| `BitReader.SymbolOfLookup` | sgx_backtrace_sys/libbacktrace/elf.c:2066-2080 | what the table gives for the buffered bits is what bit-by-bit decoding of the unread input gives; where no code begins the bits it is symbol 0 and takes eight bits if a longer code starts with them, else one |
| `BitReader.Reader.Fetch` | sgx_backtrace_sys/libbacktrace/elf.c:1044-1089 | leaves the unread bits as they were, with at least 15 and at most 46 buffered, or changes nothing when fewer than four bytes remain; it fails only less than 15 bits before the last four bytes |
| `BitReader.Reader.Drop` | sgx_backtrace_sys/libbacktrace/elf.c:2072-2079 | removes exactly n bits from the front of the unread input |
| `BitReader.Reader.Take` | sgx_backtrace_sys/libbacktrace/elf.c:1747-1753 | the value is the next n unread bits, lowest first, and exactly those are removed |
| `BitReader.Reader.NextSymbol` | sgx_backtrace_sys/libbacktrace/elf.c:2066-2080 | the next symbol is the one bit-by-bit decoding finds, or symbol 0 where no code begins the bits; exactly its bits are consumed, out of 15 to 46 buffered ones |
| `BitReader.Reader.NextDirect` | sgx_backtrace_sys/libbacktrace/elf.c:1911-1927 | the same for the code length code; with lengths of at most seven it fails only for lack of input |
| `BitReader.Reader.Align` | sgx_backtrace_sys/libbacktrace/elf.c:1647-1655 | buffering up to three bytes reaches an aligned address and does not change the unread bits |
| `BitReader.Reader.Rewind` | sgx_backtrace_sys/libbacktrace/elf.c:1686-1693 | giving buffered bytes back skips the rest of the current byte, and a whole byte when the position is already aligned |
| `MatchCopy.CopyUnique` | sgx_backtrace_sys/libbacktrace/elf.c:2189-2214 | the rule out[k] = out[k - dist] determines the output |
| `MatchCopy.RepeatLast` | sgx_backtrace_sys/libbacktrace/elf.c:2149-2164 | the memset route equals the byte-by-byte copy with distance one and touches nothing else |
| `MatchCopy.MemCpy` | sgx_backtrace_sys/libbacktrace/elf.c:2189-2214 | a block copy is only used on ranges that do not overlap and stay inside the buffer |
| `MatchCopy.CopyBack` | sgx_backtrace_sys/libbacktrace/elf.c:2189-2214 | both block-copy routes equal the byte-by-byte copy for every length and distance and touch nothing else |
| `Inflate.LengthTable` | sgx_backtrace_sys/libbacktrace/elf.c:2103-2126 | the arithmetic for lengths is the table of section 3.2.5 of RFC 1951 |
| `Inflate.DistanceTable` | sgx_backtrace_sys/libbacktrace/elf.c:2165-2187 | the arithmetic for distances is the table of section 3.2.5 of RFC 1951 |
| `Inflate.OrderIs` | sgx_backtrace_sys/libbacktrace/elf.c:1768-1890 | the order of the code length code in closed form: 16, 17, 18, 0, then outwards from 8 |
| `Inflate.ReadLength` | sgx_backtrace_sys/libbacktrace/elf.c:2103-2126 | success gives base plus extra bits of a valid length symbol |
| `Inflate.ReadDistance` | sgx_backtrace_sys/libbacktrace/elf.c:2165-2187 | success gives base plus extra bits of a valid distance symbol |
| `Inflate.WriteMatch` | sgx_backtrace_sys/libbacktrace/elf.c:2149-2214 | success writes exactly the copy RFC 1951 prescribes, within both the output so far and the buffer; it fails only when the match has no reading, starts before the output, does not fit or is read late |
| `Inflate.ReadMatch` | sgx_backtrace_sys/libbacktrace/elf.c:2097-2215 | a length symbol, its distance and the copy agree with the reference; it fails only when there is no such match, it starts before the output, does not fit or is read late |
| `Inflate.InflateSymbol` | sgx_backtrace_sys/libbacktrace/elf.c:2057-2217 | one turn of the loop is one step of the reference, a literal, a match or the end of the block; behind the end 15 to 46 bits less the end code are buffered; it fails only when the block has no reading, does not fit in the buffer or its end code is read late |
| `Inflate.InflateSymbols` | sgx_backtrace_sys/libbacktrace/elf.c:2057-2217 | the whole loop gives the reference's output for the block, and leaves 15 to 46 bits less the end code buffered; it fails for the same three reasons only |
| `Inflate.TakeLength` | sgx_backtrace_sys/libbacktrace/elf.c:1768-1890 | one fetch serves five three-bit lengths, each stored at the place the code names, which is the order of section 3.2.7 of RFC 1951; it fails only when the fetch does |
| `Inflate.ReadCodeLengthCode` | sgx_backtrace_sys/libbacktrace/elf.c:1763-1892 | the code length code is the one the reference reads; it fails only when that has no reading or ends late |
| `Inflate.ReadRun` | sgx_backtrace_sys/libbacktrace/elf.c:1928-2031 | the extra bits of a code length symbol give the value and the number of lengths the reference gives it; it fails only when the reference does |
| `Inflate.ReadLengthRun` | sgx_backtrace_sys/libbacktrace/elf.c:1911-2031 | a literal length or one of the three kinds of run, as the reference reads it; with lengths of at most seven it fails only when the lengths have no reading or end late |
| `Inflate.ReadCodeLengths` | sgx_backtrace_sys/libbacktrace/elf.c:1902-2032 | all code lengths, as the reference reads them; it fails for the same two reasons only |
| `Inflate.ReadAllLengths` | sgx_backtrace_sys/libbacktrace/elf.c:1763-2032 | code length code, its table and the lengths together give the reference's lengths, unless its header holds an oversubscribed code whose symbol 0 has one bit; it fails only when the lengths have no reading or end late |
| `Inflate.ReadDynamic` | sgx_backtrace_sys/libbacktrace/elf.c:1733-2052 | success gives the two codes of the reference and tables that decode them, unless its header holds an oversubscribed code whose symbol 0 has one bit; it fails only when the header has no reading, ends late, has more than 30 distance codes or no end code, or its secondary tables need more than 511 entries |
| `StoredBlock.StoredFromBytes` | sgx_backtrace_sys/libbacktrace/elf.c:1699-1716 | a stored block read from whole bytes is the reference's stored block |
| `StoredBlock.BytesRoundTrip` | sgx_backtrace_sys/libbacktrace/elf.c:1714-1716 | bytes come back from their bits |
| `StoredBlock.InflateBytes` | sgx_backtrace_sys/libbacktrace/elf.c:1699-1727 | from a byte boundary, success gives the length-checked bytes of the reference and leaves only the bytes before the next multiple of four buffered; it fails only when the block has no reading, does not fit, runs past the end, or a size does not fit in 32 bits |
| `StoredBlock.InflateStored` | sgx_backtrace_sys/libbacktrace/elf.c:1680-1727 | success gives the stored block of the reference with this decoder's padding rule; it fails for the same reasons only |
| `StoredBlock.PaddingExact` | sgx_backtrace_sys/libbacktrace/elf.c:1686-1693 | a stored block that section 3.2.4 of RFC 1951 accepts is read alike if and only if its header ends inside a byte |
| `StoredBlock.PaddingDiffers` | sgx_backtrace_sys/libbacktrace/elf.c:1686-1693 | an empty stored block after a header that ends on a boundary, with any data behind it, is not read as RFC 1951 reads it |
| `ZlibStream.InflateDynamic` | sgx_backtrace_sys/libbacktrace/elf.c:1733-2217 | a dynamic block agrees with the reference, unless its header holds an oversubscribed code whose symbol 0 has one bit; it fails only when the block has no reading, does not fit, is not taken or its end code is read late |
| `ZlibStream.InflateData` | sgx_backtrace_sys/libbacktrace/elf.c:1680-2217 | a block of any type agrees with the reference, unless its header holds an oversubscribed code whose symbol 0 has one bit; type 3 fails; the reader then stands at a multiple of four, with the bits buffered that the block's end code leaves; it fails for these reasons only |
| `ZlibStream.InflateBlock` | sgx_backtrace_sys/libbacktrace/elf.c:1661-2218 | one block with its header is one step of the reference, unless its header holds an oversubscribed code whose symbol 0 has one bit; it fails only when the blocks have no reading, do not fit, are not taken or the last symbol is read late |
| `ZlibStream.InflateBlocks` | sgx_backtrace_sys/libbacktrace/elf.c:1657-2218 | the blocks up to the last one give the reference's output, unless a header holds an oversubscribed code whose symbol 0 has one bit; it fails for the same reasons only |
| `ZlibStream.InflateStream` | sgx_backtrace_sys/libbacktrace/elf.c:1620-2219 | one stream, from its header by section 2.2 of RFC 1950 to the byte the next one is looked for at, is one step of the reading of all streams, unless a header holds an oversubscribed code whose symbol 0 has one bit; an acceptable stream never fails |
| `ZlibStream.InflateStreams` | sgx_backtrace_sys/libbacktrace/elf.c:1615-2219 | goes on while more than a checksum is left; the output is the data of all these streams, unless a header holds an oversubscribed code whose symbol 0 has one bit; acceptable streams never fail |
| `ZlibStream.AheadExact` | sgx_backtrace_sys/libbacktrace/elf.c:1044-1089 | how many bits are buffered when the data ends is determined by the bit it ends with, the length of the code that ends it and the address of the input |
| `ZlibStream.SecondStream` | sgx_backtrace_sys/libbacktrace/elf.c:1615-1645 | after any stream, the next header is looked for just behind the checksum if and only if that number is 32 to 39, and a byte there that is no header means failure |
| `ZlibStream.NextExact` | sgx_backtrace_sys/libbacktrace/elf.c:1615-1645 | the same for every end of the data; behind a stored block it never holds |
| `ZlibStream.InflateAll` | sgx_backtrace_sys/libbacktrace/elf.c:1601-2228 | success means the output is the data of all streams, each looked for where the reader stands after the one before, unless a header holds an oversubscribed code whose symbol 0 has one bit; and it succeeds on every input whose streams have a reading that fills the buffer, with sizes below 2^32, codes the decoder takes and no last symbol read late |
| `ZlibStream.LateExact` | sgx_backtrace_sys/libbacktrace/elf.c:1044-1089 | behind a compressed last block, the last symbol is read late if and only if c + 14 - n reaches 8 (end - 3), for the bit c the data ends with and an end code of n bits |
| `ZlibHeader.HeaderExact` | sgx_backtrace_sys/libbacktrace/elf.c:1620-1645 | the headers accepted are exactly those a compressor writes: a window size, a level, no dictionary and the least check bits that make the header a multiple of 31 |
| `DeflateWriter.SymbolRead` | sgx_backtrace_sys/libbacktrace/elf.c:2066-2080 | the code word of a symbol, followed by anything, is read as that symbol |
| `DeflateWriter.TokensRead` | sgx_backtrace_sys/libbacktrace/elf.c:2057-2217 | literals and matches, written in any codes, are read back: every length from 3 to 258 and every distance from 1 to 32768 has its symbol and extra bits |
| `DeflateWriter.PieceRead` | sgx_backtrace_sys/libbacktrace/elf.c:1928-2031 | a run of 3 to 6 repeats, 3 to 10 or 11 to 138 zeros, or one length, is read back |
| `DeflateWriter.PiecesRead` | sgx_backtrace_sys/libbacktrace/elf.c:1902-2032 | code lengths divided into any such runs are read back |
| `DeflateWriter.OrderRead` | sgx_backtrace_sys/libbacktrace/elf.c:1763-1892 | a code length code, sent in order as far as it is needed, is read back |
| `DeflateWriter.CodesRead` | sgx_backtrace_sys/libbacktrace/elf.c:1733-2052 | the header of a dynamic block is read back, whatever its codes and runs |
| `BlockWriter.DataRead` | sgx_backtrace_sys/libbacktrace/elf.c:1680-2217 | the data of a block of any of the three types is read back |
| `BlockWriter.ReadBlocks` | sgx_backtrace_sys/libbacktrace/elf.c:1657-2218 | any blocks one behind the other are read back; the bits left at the last symbol and the length of the last end code are those of the last block |
| `BlockWriter.StreamAccepted` | sgx_backtrace_sys/libbacktrace/elf.c:1601-2228 | a zlib stream of any blocks is acceptable to the decoder when it takes the codes, sizes stay below 2^32 and the last end code and the fill bits have seven bits together |
| `RoundTrip.InflateWritten` | sgx_backtrace_sys/libbacktrace/elf.c:1601-2228 | the decoder succeeds on every such stream and its output is the data that was written |
| `RoundTrip.Restore` | sgx_backtrace_sys/libbacktrace/elf.c:2355-2365 | every sequence of less than 2^32 bytes, compressed with the fixed code, is restored and its checksum verified, at every address |
| `ZlibStream.RefusesSecond` | sgx_backtrace_sys/libbacktrace/elf.c:1609-1645 | two streams one behind the other are refused when the first is an empty stored one: its second header is looked for inside the checksum |
| `ZlibStream.FirstStream` | sgx_backtrace_sys/libbacktrace/elf.c:1601-2228 | success means the first stream has a valid header and, unless it has such a code, valid data, and is all of the output when it ends within a checksum of the end |
| `Conformance.SymbolAssigned` | sgx_backtrace_sys/libbacktrace/elf.c:2066-2080 | a complete code never meets an unassigned bit pattern |
| `Conformance.HeaderProper` | sgx_backtrace_sys/libbacktrace/elf.c:1733-2052 | when the three codes of a dynamic header are complete, the header is read as RFC 1951 says |
| `Conformance.BlocksSame` | sgx_backtrace_sys/libbacktrace/elf.c:1657-2218 | when no stored header ends on a byte boundary and no bits are met that no code begins, the decoder reads what RFC 1951 reads |
| `Conformance.UnassignedRead` | sgx_backtrace_sys/libbacktrace/elf.c:2066-2080 | with a single one-bit code, a set bit is read as symbol 0 where RFC 1951 has no symbol |
| `Conformance.DataBefore` | sgx_backtrace_sys/libbacktrace/elf.c:1601-2228 | valid data that ends before a byte is the data of the bytes before it alone |
| `Prefix.BlocksCut` | sgx_backtrace_sys/libbacktrace/elf.c:1657-2218 | a reading by RFC 1951 depends only on the bits it consumes: whole bytes behind them may be dropped |
| `Conformance.InflateSound` | sgx_backtrace_sys/libbacktrace/elf.c:1601-2228 | success on one stream without a stored header on a byte boundary: RFC 1951 accepts it if and only if it meets neither bits that no code begins nor an oversubscribed code whose symbol 0 has one bit, and then gives the same bytes; data that ends in the last byte before the checksum is read from the bytes up to there alone |
| `Conformance.BlocksAssigned` | sgx_backtrace_sys/libbacktrace/elf.c:1733-2217 | with complete codes RFC 1951 meets neither flaw |
| `Conformance.InflateComplete` | sgx_backtrace_sys/libbacktrace/elf.c:1601-2228 | success on one stream with complete codes and no stored header on a byte boundary means that RFC 1951 accepts it and gives the same bytes |
| `Adler.ChunkFits` | sgx_backtrace_sys/libbacktrace/elf.c:2257-2296 | the delayed sums of a chunk of 5552 bytes never exceed 4294690200, so nothing leaves 32 bits |
| `Adler.ChunkLargest` | sgx_backtrace_sys/libbacktrace/elf.c:2257-2258 | a chunk is as long as it can be: with one byte more the second sum may leave 32 bits |
| `Adler.AddBytes` | sgx_backtrace_sys/libbacktrace/elf.c:2258-2292 | unreduced additions stay within 32 bits and stand for the reduced sums |
| `Adler.AddChunk` | sgx_backtrace_sys/libbacktrace/elf.c:2257-2296 | a chunk, sixteen bytes to a turn and reduced once, stands for the per-byte sums |
| `Adler.AddTail` | sgx_backtrace_sys/libbacktrace/elf.c:2298-2342 | the tail gives the per-byte sums of all the data |
| `Adler.Accumulate` | sgx_backtrace_sys/libbacktrace/elf.c:2250-2342 | for every length the result is the per-byte modular definition of section 8.2 of RFC 1950 |
| `Adler.Verify` | sgx_backtrace_sys/libbacktrace/elf.c:2234-2350 | accepts exactly when the checksum of the data is the stored big-endian value |
| `Adler.BaseIsPrime` | sgx_backtrace_sys/libbacktrace/elf.c:2294-2296 | the modulus is the largest prime below 65536 |
| `Adler.AdlerClosed` | sgx_backtrace_sys/libbacktrace/elf.c:2294-2296 | the two sums are one plus the sum of the bytes, and the sum of these sums, each reduced once |
| `Adler.ChecksumParts` | sgx_backtrace_sys/libbacktrace/elf.c:2340-2344 | the checksum has the second sum in its upper and the first in its lower half |
| `Adler.InflateAndVerify` | sgx_backtrace_sys/libbacktrace/elf.c:2355-2365 | success means both: what InflateAll promises of the output, and that its checksum is the last four bytes; an acceptable stream with the right checksum is accepted |
| `AlignSolver.RolBit` | sgx_alloc/src/alignalloc.rs:317-325 | rotating left by c moves bit i - c to bit i around the word, for every c |
| `AlignSolver.OnesBit` | sgx_alloc/src/alignalloc.rs:370-380 | the run mask has exactly the low len bits, also when the subtraction wraps for len 63 |
| `AlignSolver.MaskBit` | sgx_alloc/src/alignalloc.rs:309-315 | the doubling mask marks exactly the multiples of the alignment, counted from the top bit |
| `AlignSolver.ClearBit` | sgx_alloc/src/alignalloc.rs:339-352 | the combined rotations clear exactly the pads under which a marked byte falls on line offset 0 or 4 to 7 |
| `AlignSolver.LzbFirst` | sgx_alloc/src/alignalloc.rs:331-337 | the leading-zero count is the first set bit from the top, or -1 for zero |
| `AlignSolver.LspcExact` | sgx_alloc/src/alignalloc.rs:339-352 | the result is the least multiple of the alignment that is clear; it is negative exactly when there is none |
| `AlignAlloc.MarkRequest` | sgx_alloc/src/alignalloc.rs:292-303 | marks the bytes of a request, and fails exactly when it overlaps an earlier one |
| `AlignAlloc.CheckAlignReq` | sgx_alloc/src/alignalloc.rs:271-307 | accepts exactly non-empty lists of in-range, pairwise disjoint requests, given the scratch memory |
| `AlignLayout.MakeBitmap` | sgx_alloc/src/alignalloc.rs:370-380 | bit k is set exactly when some requested byte has line offset k, for requests of any length |
| `AlignLayout.LeastPad` | sgx_alloc/src/alignalloc.rs:339-380 | the pad is the least multiple of the alignment in [0, 64) that keeps all requested bytes off offsets 0 and 4 to 7; the solver is negative exactly when none does |
| `AlignLayout.PaddingNeededFor` | sgx_alloc/src/alignalloc.rs:235-249 | succeeds exactly when layout and requests are valid and some pad fits, with the least such pad |
| `AlignLayout.PadAlignTo` | sgx_alloc/src/alignalloc.rs:229-233 | success gives the least pad and the chosen alignment; it succeeds exactly when layout and requests are valid, some pad fits, and size, pad and twice the alignment fit in the address space |
| `AlignLayout.SecretPlacement` | sgx_alloc/src/alignalloc.rs:229-258 | for every raw address, no requested byte of the placed object has an address congruent to 0, 4, 5, 6 or 7 modulo 64, also when the chosen alignment is 8, 16 or 32 |
| `AlignLayout.InsideBlock` | sgx_alloc/src/alignalloc.rs:203-215 | the placed object lies inside the block that was asked for |
| `AlignLayout.PointerAligned` | sgx_alloc/src/alignalloc.rs:251-258 | the pointer is aligned for every raw address if and only if the alignment is over 64, at most 8 or less than twice the size, or the object may not start its line |
| `AlignLayout.LargeEnough` | sgx_alloc/src/alignalloc.rs:251-258 | in particular the pointer is aligned when the object is at least as large as its alignment |
| `AlignLayout.SmallMisses` | sgx_alloc/src/alignalloc.rs:354-368 | three bytes aligned to 16 can be placed at an address that is not a multiple of 16 |
| `AlignLayout.OverflowTestsAgree` | sgx_align_struct_attribute/src/layout.rs:75-79 | the overflow test of the macro's copy of the solver is the same predicate as the allocator's |
| `QSort.Swap` | sgx_backtrace_sys/libbacktrace/sort.c:45-56 | exchanges two elements and nothing else |
| `QSort.Partition` | sgx_backtrace_sys/libbacktrace/sort.c:75-91 | splits a range around a pivot: everything before it is below it, nothing after it is, and the range is rearranged |
| `QSort.Sort` | sgx_backtrace_sys/libbacktrace/sort.c:58-106 | for every total preorder: sorted, a rearrangement of the range only, and recursion no deeper than log2 of the count |
| `LineIndex.ScanCorrect` | sgx_backtrace_sys/libbacktrace/dwarf.c:1110-1130 | the linear scan finds the greatest PC not above the key, the last emitted row among equals, and nothing exactly when all rows lie above |
| `LineIndex.BuildIndex` | sgx_backtrace_sys/libbacktrace/dwarf.c:2220-2242 | the index holds every row once, ordered by PC and then by emission, with a sentinel at the highest address |
| `LineIndex.Find` | sgx_backtrace_sys/libbacktrace/dwarf.c:3012-3020 | binary search with the range comparison returns the entry the linear scan finds, or nothing when it finds nothing |
| `LineIndex.RowAt` | sgx_backtrace_sys/libbacktrace/dwarf.c:1092-1130 | index and search together equal the linear scan for every list of rows |
| `Leb128.UnsignedRoundTrip` | sgx_backtrace_sys/libbacktrace/dwarf.c:630-663 | decoding inverts a reference encoder of section 7.6 of DWARF Version 4 for every natural number |
| `Leb128.UnsignedExamples` | sgx_backtrace_sys/libbacktrace/dwarf.c:630-663 | the reference encoder gives the examples of section 7.6 of DWARF Version 4 |
| `Leb128.SignedRoundTrip` | sgx_backtrace_sys/libbacktrace/dwarf.c:667-704 | the same for every integer |
| `Leb128.SignedExamples` | sgx_backtrace_sys/libbacktrace/dwarf.c:667-704 | and those for signed numbers |
| `Leb128.SignedMod` | sgx_backtrace_sys/libbacktrace/dwarf.c:699-703 | the sign-extended word is the signed value modulo 2^64, extension or not |
| `DwarfBuf.SevensUnsigned` | sgx_backtrace_sys/libbacktrace/dwarf.c:640-660 | up to the limit of the 32-bit shift counter, or-ing seven bits at a time gives the value modulo 2^64, padding bytes included |
| `DwarfBuf.Buf.Advance` | sgx_backtrace_sys/libbacktrace/dwarf.c:471-480 | moves by exactly count bytes, or leaves the cursor and notes the underflow |
| `DwarfBuf.Buf.ReadByte` | sgx_backtrace_sys/libbacktrace/dwarf.c:484-493 | the next byte, or zero and an underflow at the end |
| `DwarfBuf.Buf.ReadSevens` | sgx_backtrace_sys/libbacktrace/dwarf.c:630-663 | consumes exactly the bytes of the encoding and collects their bits; fails exactly when no byte ends it |
| `DwarfBuf.Buf.ReadUleb` | sgx_backtrace_sys/libbacktrace/dwarf.c:630-663 | the mathematical value modulo 2^64 of every encoding within the limit, consuming exactly its bytes; zero when the data runs out |
| `DwarfBuf.Buf.ReadSleb` | sgx_backtrace_sys/libbacktrace/dwarf.c:667-704 | the mathematical value modulo 2^64 as a signed word, consuming exactly its bytes; zero when the data runs out |
| `DwarfBuf.Buf.ReadFixed` | sgx_backtrace_sys/libbacktrace/dwarf.c:510-567 | a number of so many bytes in the data's byte order, or zero and an underflow |
| `DwarfBuf.Collect` | sgx_backtrace_sys/libbacktrace/dwarf.c:510-567 | shifting each byte to its place and or-ing it in gives the number in either byte order |
| `DwarfBuf.FindLen` | sgx_backtrace_sys/libbacktrace/dwarf.c:708-720 | the length found is the number of bytes the readers consume |
| `DwarfBuf.ReadBackUnsigned` | sgx_backtrace_sys/libbacktrace/dwarf.c:630-663 | every 64-bit value, encoded and followed by anything, is read back |
| `DwarfBuf.ReadBackSigned` | sgx_backtrace_sys/libbacktrace/dwarf.c:667-704 | every signed 64-bit value, encoded and followed by anything, is read back |
| `LineTable.StoredPlain` | sgx_backtrace_sys/libbacktrace/dwarf.c:1699-1734 | with base address zero, comparing with the last stored row drops exactly the rows that repeat their predecessor |
| `LineTable.RepeatDropped` | sgx_backtrace_sys/libbacktrace/dwarf.c:1699-1734 | a row emitted twice is stored once if and only if the base address is zero |
| `LineTable.StoredExact` | sgx_backtrace_sys/libbacktrace/dwarf.c:1699-1734 | for every base address, every row is stored if and only if none equals its predecessor with the base added; then the table is the relocated rows |
| `LineTable.RelocationDrops` | sgx_backtrace_sys/libbacktrace/dwarf.c:1706-1713 | with base 16 a row that repeats nothing is lost, and a lookup answers with another line |
| `LineTable.CollapseScan` | sgx_backtrace_sys/libbacktrace/dwarf.c:1706-1713 | dropping repetitions does not change which row is in force at any address |
| `LineTable.StoredScan` | sgx_backtrace_sys/libbacktrace/dwarf.c:1699-1734 | with base zero, or when every row is stored, what is in force at any address is what the relocated rows say |
| `LineProgram.AdvanceExact` | sgx_backtrace_sys/libbacktrace/dwarf.c:1969-1971 | multiplying before dividing is the standard's address advance for all counts if and only if instructions hold one operation or are one byte long |
| `LineWriter.SpecialRead` | sgx_backtrace_sys/libbacktrace/dwarf.c:1963-1974 | section 6.2.5.1 from the writer's side: the opcode for n operations and d lines moves the address by n times the instruction length and the line by d, and appends that row, in both machines |
| `LineWriter.ConstAddRead` | sgx_backtrace_sys/libbacktrace/dwarf.c:2116-2127 | the constant advance moves the address as opcode 255 does, keeps the line and appends nothing |
| `LineWriter.InstrRead` | sgx_backtrace_sys/libbacktrace/dwarf.c:1958-2152 | every special, standard and extended instruction, laid out as sections 6.2.5.1 to 6.2.5.3 say, is read back |
| `LineWriter.ProgramRead` | sgx_backtrace_sys/libbacktrace/dwarf.c:1936-2155 | and so is every program |
| `LineWriter.LongForm` | sgx_backtrace_sys/libbacktrace/dwarf.c:1963-1974 | advancing the address, advancing the line and copying is what the special opcode does |
| `LineWriter.FixedForm` | sgx_backtrace_sys/libbacktrace/dwarf.c:2128-2132 | a fixed advance by the bytes of n instructions moves the address as an advance by n operations |
| `LineWriter.DefinedRow` | sgx_backtrace_sys/libbacktrace/dwarf.c:1996-2051 | in the standard a defined file is numbered behind those of the header, and is current only once it is set |
| `LineWriter.WantedRows` | sgx_backtrace_sys/libbacktrace/dwarf.c:1936-2155 | a program written for a list of addresses, files and lines decodes, and its rows are that list |
| `LineProgram.SameRowsExact` | sgx_backtrace_sys/libbacktrace/dwarf.c:1981-2104 | where section 6.2.5 of DWARF Version 4 defines the rows, the reader accepts the program and emits them if and only if no file the program defines is set by number, and no row is emitted while a defined name is pending that is not the current file's (with a special case for a header without files) |
| `LineProgram.ProgramRows` | sgx_backtrace_sys/libbacktrace/dwarf.c:1936-2155 | the same, stated on the bytes of a program |
| `LineProgram.DefineFileDiffers` | sgx_backtrace_sys/libbacktrace/dwarf.c:1996-2051 | defining a file and copying: the reader's row names the defined file, the standard's the first file of the header |
| `LineProgram.PlainHarmless` | sgx_backtrace_sys/libbacktrace/dwarf.c:1936-2155 | programs that define no file always meet that condition |
| `LineReader.Machine.AddRow` | sgx_backtrace_sys/libbacktrace/dwarf.c:1699-1734 | stores the machine's next row |
| `LineReader.Machine.AdvanceBy` | sgx_backtrace_sys/libbacktrace/dwarf.c:2072-2079 | with one operation per instruction the address advances as in the standard, modulo 2^64, and op_index stays 0 |
| `LineReader.Machine.DoSpecial` | sgx_backtrace_sys/libbacktrace/dwarf.c:1963-1974 | a special opcode takes the step of section 6.2.5.1 and stores its row |
| `LineReader.Machine.Standard` | sgx_backtrace_sys/libbacktrace/dwarf.c:2065-2151 | a standard opcode takes the reader's step, unknown ones are skipped with their operands |
| `LineReader.Machine.DoSetFile` | sgx_backtrace_sys/libbacktrace/dwarf.c:2086-2104 | the file name is that of the header's entry; any other number is an error and changes nothing |
| `LineReader.Machine.DoDefineFile` | sgx_backtrace_sys/libbacktrace/dwarf.c:1996-2051 | a well-formed definition is consumed and its name becomes current |
| `LineReader.Machine.Operate` | sgx_backtrace_sys/libbacktrace/dwarf.c:1981-2064 | an extended opcode of the stated length takes the reader's step |
| `LineReader.Machine.Extended` | sgx_backtrace_sys/libbacktrace/dwarf.c:1975-2064 | length, opcode and operands together take the reader's step |
| `LineReader.ReadAddress` | sgx_backtrace_sys/libbacktrace/dwarf.c:584-603 | an address of 1, 2, 4 or 8 bytes; other sizes read nothing |
| `LineReader.Machine.Next` | sgx_backtrace_sys/libbacktrace/dwarf.c:1958-2152 | one opcode is one step of the reader's machine, or fails as it does, and consumes at least one byte |
| `LineReader.ReadLineProgram` | sgx_backtrace_sys/libbacktrace/dwarf.c:1936-2155 | terminates on all input; on every program that decodes it fails exactly when its machine rejects an instruction, and otherwise consumes it all and has stored the machine's rows, for every base address |
| `LineReader.LookupLine` | sgx_backtrace_sys/libbacktrace/dwarf.c:2160-2254 | reading, indexing and searching gives, for every address, the row in force among the standard's rows, when the instructions are harmless and relocation drops none of them |
| `Abbrevs.CountAttrs` | sgx_backtrace_sys/libbacktrace/dwarf.c:1251-1254 | counts exactly the pairs a single pass would read, and stops where it would, or at truncated data |
| `Abbrevs.SkipEntry` | sgx_backtrace_sys/libbacktrace/dwarf.c:1192-1203 | skips exactly the bytes of an entry, or exhausts the data and notes it |
| `Abbrevs.CountEntries` | sgx_backtrace_sys/libbacktrace/dwarf.c:1183-1212 | succeeds exactly when the table is complete, with the number of its entries |
| `Abbrevs.FillAttrs` | sgx_backtrace_sys/libbacktrace/dwarf.c:1269-1285 | never writes beyond the counted attributes, never underflows, and reads what a single pass would |
| `Abbrevs.ReadAttrs` | sgx_backtrace_sys/libbacktrace/dwarf.c:1248-1286 | counting ahead and then reading gives the attributes of a single pass |
| `Abbrevs.FillEntries` | sgx_backtrace_sys/libbacktrace/dwarf.c:1225-1293 | after a successful count the second pass never underflows, stays within the counted entries and reads them all |
| `Abbrevs.ReadAbbrevs` | sgx_backtrace_sys/libbacktrace/dwarf.c:1155-1303 | succeeds exactly on an in-range offset with a complete table, and then holds all its entries in order of their codes |
| `Abbrevs.LookupAbbrev` | sgx_backtrace_sys/libbacktrace/dwarf.c:1307-1332 | direct index plus binary search finds an entry with the code exactly when a linear search does, and the entry itself when codes do not repeat |
| `AbbrevWriter.AttrsRead` | sgx_backtrace_sys/libbacktrace/dwarf.c:1269-1286 | names and forms are read back in order, each as what it was written |
| `AbbrevWriter.TableRead` | sgx_backtrace_sys/libbacktrace/dwarf.c:1155-1303 | a whole table is read back, whatever follows it: codes, tags, children flags, names and forms |
| `Freelist.RoundUpCovers` | sgx_backtrace_sys/libbacktrace/mmap.c:178-179 | rounding a request up to pages covers it if and only if the sum does not wrap around |
| `Heap.ReadBack` | sgx_backtrace_sys/libbacktrace/mmap.c:115-117 | a word is read from memory as it was written |
| `Heap.HeaderInside` | sgx_backtrace_sys/libbacktrace/mmap.c:114-117 | the two words written into a free block stay inside it |
| `Heap.LinkedPush` | sgx_backtrace_sys/libbacktrace/mmap.c:114-117 | writing a header in front of a list makes memory spell the longer list |
| `Heap.UnlinkFirst` | sgx_backtrace_sys/libbacktrace/mmap.c:153-155 | moving the head to the first block's next one makes memory spell the list without it |
| `Heap.UnlinkLater` | sgx_backtrace_sys/libbacktrace/mmap.c:111 | writing a block's next one into the block before it makes memory spell the list without it |
| `Heap.LinkedUnique` | sgx_backtrace_sys/libbacktrace/mmap.c:79-84 | memory spells one list only |
| `Freelist.State.Smallest` | sgx_backtrace_sys/libbacktrace/mmap.c:101-106 | walking the headers counts the blocks and finds the first of the smallest and its predecessor |
| `Freelist.State.Unlink` | sgx_backtrace_sys/libbacktrace/mmap.c:107-112 | a block taken off the list leaves headers that spell the rest; no byte a caller owns is written |
| `Freelist.State.Push` | sgx_backtrace_sys/libbacktrace/mmap.c:114-117 | a block put on the list is its first, and the headers spell the new list |
| `Freelist.State.Store` | sgx_backtrace_sys/libbacktrace/mmap.c:302-315 | what callers write into their own bytes leaves the list as it is |
| `Freelist.State.FreeLocked` | sgx_backtrace_sys/libbacktrace/mmap.c:88-119 | the headers in memory spell the list again; free blocks stay aligned, at least header-sized, disjoint from each other and from what callers own; a full list keeps the sixteen largest of the seventeen; no byte a caller owns is written |
| `Freelist.State.TakeFree` | sgx_backtrace_sys/libbacktrace/mmap.c:150-168 | a block taken from the list is split at the rounded request, was nobody's, and its remainder is back on the list when it can hold a header; the headers in memory spell the new list |
| `Freelist.State.TakePages` | sgx_backtrace_sys/libbacktrace/mmap.c:175-208 | new pages are split at the rounded request when the size does not wrap, and their remainder is freed |
| `Freelist.State.Alloc` | sgx_backtrace_sys/libbacktrace/mmap.c:124-211 | first fit, else new pages; the block was nobody's, covers the request when page rounding does not wrap, and callers' bytes keep their values; null exactly when neither is there, and then nothing changed; the block is less than eight bytes larger than the request |
| `Freelist.State.Free` | sgx_backtrace_sys/libbacktrace/mmap.c:215-271 | exactly the freed bytes stop being owned and the other callers' bytes keep their values; whole large pages leave the map when the system takes them; the invariant holds |
| `Vector.CapacityEnough` | sgx_backtrace_sys/libbacktrace/mmap.c:287-300 | the new capacity holds the contents and what is asked for |
| `Vector.CapacityDoubles` | sgx_backtrace_sys/libbacktrace/mmap.c:287-300 | a new vector gets sixteen times what is asked for; others double, up to a page or to whole pages |
| `Vector.Vec.Move` | sgx_backtrace_sys/libbacktrace/mmap.c:302-315 | the new block was nobody's, holds the old contents, and the old block is given back; other callers' bytes keep their values; it fails exactly when neither the list nor the system has room |
| `Vector.Vec.Grow` | sgx_backtrace_sys/libbacktrace/mmap.c:275-322 | the contents stay and the pointer is just behind them; the vector owns all its bytes, moves only when it must, and other callers' bytes keep their values; it fails exactly when it must move and neither the list nor the system has room |
| `Vector.Vec.Finish` | sgx_backtrace_sys/libbacktrace/mmap.c:326-338 | what remains is a valid vector if and only if the contents were a multiple of eight bytes long |
| `Vector.Vec.Release` | sgx_backtrace_sys/libbacktrace/mmap.c:342-362 | exactly the bytes behind the aligned end are given back; the contents stay |
| `Vector.TailInside` | sgx_backtrace_sys/libbacktrace/mmap.c:353-358 | what a release frees lies inside the vector if and only if the vector reaches the aligned end of its contents |
| `Vector.AlignedReaches` | sgx_backtrace_sys/libbacktrace/mmap.c:353-358 | that holds whenever the contents are a multiple of eight bytes long |
| `Vector.TailWraps` | sgx_backtrace_sys/libbacktrace/mmap.c:353-358 | and fails for a full vector of thirty-four three-byte elements, where the size wraps around |
| `Event.StepKeeps` | sgx_ustdc/event.c:122-169 | every atomic step of the waiter or a waker keeps the invariant |
| `Event.EveryRun` | sgx_ustdc/event.c:122-169 | in every interleaving a sleeping waiter finds the counter at -1 or has a wake on its way; the counter is sets minus waits plus resets; a waiter asleep with no wake pending leaves no set untaken |
| `Event.UntimedNeverLapses` | sgx_ustdc/event.c:122-131 | a wait without a timeout never returns -1 |
| `Event.LapsesWereTimed` | sgx_ustdc/event.c:122-157 | in every run at most as many waits return -1 as had a timeout |
| `Event.AloneNoWake` | sgx_ustdc/event.c:159-169 | when every set finds the counter at zero, no wake is sent |
| `Event.SettledExact` | sgx_ustdc/event.c:133-157 | a step lets a wait return without a set exactly when it wakes a sleeper while the counter is -1 |
| `Event.SettledRunExact` | sgx_ustdc/event.c:122-169 | at every moment of a run every return is paid for by a set if and only if no step is such a wake |
| `Event.TakenWereSet` | sgx_ustdc/event.c:122-169 | in runs without such wakes, waits never return more often than sets are made and the counter never falls below -1 |
| `Event.StaleWake` | sgx_ustdc/event.c:148-153 | such a wake is possible: a timeout overtakes a wake, which then ends the next wait |
| `Ring.InitWellFormed` | sgx_ustdc/event.c:29-33 | a fresh head is an empty ring |
| `Ring.AddWellFormed` | sgx_ustdc/event.c:35-49 | the four writes of an insertion put the entry first and keep the ring linked both ways |
| `TcsCache.StepKeeps` | sgx_ustdc/event.c:208-253 | every step of any thread keeps both locks exclusive, at most one cache, a well formed ring with one entry per TCS, and what each thread knows of it |
| `TcsCache.OneCache` | sgx_ustdc/event.c:240-253 | in every interleaving at most one cache is created, the global names it, and its ring is well formed |
| `TcsCache.SameEvent` | sgx_ustdc/event.c:208-238 | in every interleaving all calls for a TCS that return an event return the same one |
| `TcsCache.LaterSame` | sgx_ustdc/event.c:207-236 | once a call for a TCS has returned an event, every later call for it returns the same one |
| `TcsCache.NullNeedsFailure` | sgx_ustdc/event.c:207-252 | a call returns no event only if an allocation of the run failed |
| `TcsCache.OwnEvent` | sgx_ustdc/event.c:208-238 | in every interleaving calls for different TCSs never return the same event |
| `TcsCache.NeverStuck` | sgx_ustdc/spinlock.c:45-60 | in every interleaving a thread that holds a lock can go on, and every link it follows leads to an entry |

## Left out

- InflateTable.Build: refuses every oversubscribed set of lengths in which symbol 0 does not have one bit; of the others it does not say which are accepted, nor what their table decodes, because the entry of symbol 0 looks like a free slot there.
- ZlibStream.InflateBlocks: says nothing of blocks whose header holds such a set, and neither do the methods around it.
- FixedCodes.FixedTables: builds the fixed tables; that the constants compiled into the decoder are those tables is not shown.
- Conformance.InflateSound: data that runs past the last byte before the checksum is compared with RFC 1951 on the bytes behind the input as well, because the decoder may have buffered three of them.
- ZlibStream.InflateAll: requires three readable bytes after the input, because aligning the input pointer may read them; streams whose last symbol comes less than 15 bits before the last four bytes may be refused, because a fetch needs four bytes; which of them are is not said.
- AlignAlloc.CheckAlignReq: excludes sizes above 2^64 - 8, because rounding them up to whole bytes of the bitmap overflows.
- AlignLayout.PaddingNeededFor: excludes the same sizes, for the same reason.
- AlignLayout.PadAlignTo: excludes layouts whose size, largest pad and alignment do not add up within 2^64, because the code adds them unchecked; the back pointer stored before the object and deallocation are not modelled.
- LineIndex.Find: the key is below the highest address, which is the sentinel's own.
- LineReader.ReadLineProgram: compares registers for one operation per instruction only; what the code makes of programs that do not decode is only shown to terminate. A line range of zero and zero operations per instruction, both of which the code divides by without a check, are excluded.
- LineReader.Machine.DoDefineFile: a file name without a slash in directory 0 takes the compilation directory, which the code takes to be there (dwarf.c:2019-2030); a missing one is not modelled.
- LineReader.LookupLine: the unit's length is taken to fit in its section, which the code does not check.
- DwarfBuf.Buf.ReadUleb: beyond the limit of the 32-bit shift counter the value is only said to be a function of the bytes.
- Abbrevs.ReadAbbrevs: memory allocation is taken to succeed.
- Freelist.State.Alloc: one thread; the locked path of several threads is not used by this build.
- Vector.CapacityEnough: sizes stay clear of 2^64, where the doubling wraps around.
- Vector.Vec.Grow: likewise.
- Vector.Vec.Release: requires the vector to reach the aligned end of its contents; `Vector.TailInside` says what happens otherwise.
- Event.EveryRun: the counter is unbounded, where the code's is 32 bits wide, and null events are not modelled.
- TcsCache.StepKeeps: an insertion into the ring is one step, since it happens under the mutex whose exclusion is proved; teardown of the cache is not modelled.
- Unit and function address ranges, whose binary search runs over nested ranges: the comparison is not monotone there.
- Symbol tables, ELF section handling, file access, printing of backtraces: plumbing around the parts above.
- The signal, thread and file calls of the untrusted layer: thin wrappers over system calls.
- Cryptographic helpers, reserved memory and the other containers: wrappers over code that is not part of this model.
