# The DEFLATE and ZIP engine, verified

This project models the compression engine of the Java linker, `exjld/miniz.h`, and the archive writer on top of it,
`exjld/zip.c`, and proves what they are for: whatever is compressed comes back, and whatever is put into an archive is
found in it.

Bits are `seq<bool>`, bytes are numbers below 256, and every format has a reference decoder written straight from its
definition (`Blocks`, `Streams`, `CodeLens`, `LzTokens`, `ZipReader`). The engine itself is modelled in its own form:
classes with the source's buffers and cursors, in-place array algorithms, loops with their invariants.

The main results, from the inside out:

- **Canonical codes.** The decoder's lookup-and-tree table decodes every bit string to the one symbol whose canonical
  code starts it (`HuffDecoder.Table.Build`, `HuffDecoder.Table.Decode`), and the encoder's tables always pass the
  decoder's test (`CodeBuilder.OptimizeTable`).
- **Minimum redundancy.** The in-place two-queue algorithm gives code lengths that no prefix code beats
  (`MinRedundancy.CodeLengths`, on top of `HuffmanBound.LowerBound`); limiting them keeps the code complete
  (`LimitLengths.EnforceMaxCodeSize`) and costs at most `n` / 270 bits per occurrence for `n` symbols
  (`LimitCost.LimitingCost`).
- **Every block fits.** From this bound on the codes and from what the code buffer can hold, every block with what a
  flush puts behind it fits the output buffer (`BlockSize.OwnBodySize`, `Deflater.WriteBlock`). The source asserts this
  and keeps a second try for a block that does not fit; that try is never made.
- **Fast forms refine simple ones.** The 64-bit emitter writes the portable emitter's bits (`Emitter.EmitFast`), the
  three match-copy paths make the same output (`OutWindow.Sink.CopyMatch`), the two-symbol decode loop does two steps of
  the reference decoder (`Inflater.TwoSymbols`), deferred Adler-32 and nibble CRC-32 equal their definitions.
- **The inflater.** What it reads does not depend on how the input is split (`BitSource.Source.NextSymbol`). It decodes
  every well-formed stream; and when it succeeds, the bits it took are a stream for what it put out if and only if the
  input does not leave the format in a way it does not look for (`Inflater.Inflate`). What those ways are is below.
- **The compressor.** Over any calls and flushes, whatever the hash chains hold, the delivered bytes carry the source
  (`Deflater.Compressor.Compress`), in fixed, dynamic or stored blocks (`Deflater.WriteBlock`).
- **The round trip.** Any input, in any calls with any flushes, compressed and cut into any pieces, inflates to itself
  (`Zlib.CompressAndInflate`).
- **Archives.** Over every run the records stay gap-free and are never overwritten (`ZipWriter.Run`); a reader gets back
  what was written exactly when names and sizes fit their fields (`ZipArchive.ReaderAgrees`); sorted search agrees with
  the scan (`ZipIndex.SearchAgrees`); extraction returns the data (`ZipArchive.Extract`, `ZipExtract.Extract`).

Three promises of the source turn out not to hold as stated. The comments on the Huffman reader say that it never takes a
byte it does not need; the two-byte refill does (`BitReader.TakesTooMuch`), and `BitReader.Reader.HuffDecode` says
exactly when. An archive can be written that its own reader does not give back: names of 65536 bytes or more and
data of 2^32 bytes or more are cut to their fields, and a size of 2^32 - 1 is taken for a marker and refused
(`ZipLimits.LongNameLost`, `ZipLimits.LargeDataLost`); `ZipArchive.ReaderAgrees` says exactly when everything comes back.
And the inflater accepts inputs that are no streams. There are three ways out of the format that it does not look for
(`Canonical.Way`): a header may name a code of one symbol or none, and bits that this code does not spell are then read
as symbol zero; length symbols 286 and 287 and distance symbols 30 and 31 stand for nothing; and a match may reach before
the output. `OutsideRuns.AcceptNoStream` is a run of `Inflater.Inflate` that takes the first way and succeeds. Whether an
input leaves the format is a property of the input and the reference decoder alone (`Departures.Escapes`), it does so in
one way at most (`Departures.DepartsOnce`), and `Inflater.Inflate` says that on success this is exactly what decides
whether a stream was read. On the other two ways the model stops with a result of its own, `Outside`, where the source
goes on (`OutsideRuns.StopAtNoMeaning`); a failure of the source is `Broken`.

Every lemma turns automatic induction off, so each proof is the one written out. `dafny verify dfyconfig.toml` checks
the whole project.

## Model

| member | source | states |
|---|---|---|
| `Canonical.PrefixFree` | exjld/miniz.h:2714-2726 | for every length vector that does not oversubscribe the code space, different used symbols have different codes and no code starts another (section 3.2.2 of RFC 1951) |
| `Canonical.MatchUnique` | exjld/miniz.h:2718-2726 | at most one symbol's code starts a given bit string |
| `Canonical.MatchExists` | exjld/miniz.h:2084-2092 | when the decoder's total is exactly 65536, some symbol's code starts every string of 15 bits |
| `Canonical.ReverseCode` | exjld/miniz.h:2723-2725 | the shift loop that both sides run returns the code with its bits reversed, for every code and length |
| `Canonical.RevPath` | exjld/miniz.h:2100-2101 | the reversed code, written least significant bit first, spells the path of the code from the root |
| `Canonical.SymRoundTrip` | exjld/miniz.h:2718-2726 | whatever bits follow, the bits written for a symbol decode to that symbol and its length |
| `Canonical.TrimAccepted` | exjld/miniz.h:2153-2157 | unused symbols at the end of the alphabet do not change whether the decoder accepts the lengths |
| `Canonical.TrimMatch` | exjld/miniz.h:2153-2157 | nor which symbol a bit string starts with |
| `HuffTable.AboveNotLeaf` | exjld/miniz.h:2118-2129 | an inner path of the overflow tree is never itself a code, so a stored symbol 0 is never taken for an empty node |
| `HuffTable.InnerFromBound` | exjld/miniz.h:2118-2129 | a binary tree has fewer inner nodes than leaves, so tree indices stay below 576 |
| `HuffDecoder.NextCodes` | exjld/miniz.h:2084-2089 | computes the first code of each length, the completeness total and the number of used symbols |
| `HuffDecoder.Table.Fill` | exjld/miniz.h:2103-2108 | a short code fills exactly the lookup entries whose low bits are the reversed code; all others keep their contents |
| `HuffDecoder.Table.EnterLookup` | exjld/miniz.h:2110-2117 | the node below a long code's first ten bits is found or made, and every code inserted before still decodes |
| `HuffDecoder.Table.EnterTree` | exjld/miniz.h:2119-2127 | the same one bit further down the overflow tree |
| `HuffDecoder.Table.Store` | exjld/miniz.h:2128-2129 | the symbol is stored in the slot its code ends at, which held nothing |
| `HuffDecoder.Table.InsertLong` | exjld/miniz.h:2110-2129 | a long code is inserted without disturbing the others; no index leaves the arrays |
| `HuffDecoder.Table.Insert` | exjld/miniz.h:2095-2130 | one symbol, with the next free code of its length, is added to the table's invariant |
| `HuffDecoder.Table.Build` | exjld/miniz.h:2073-2130 | succeeds if and only if the lengths form a complete code or use at most one symbol, and the table then stands for their canonical code |
| `HuffDecoder.Table.Decode` | exjld/miniz.h:1916-1925 | lookup and tree walk return the unique symbol whose canonical code the bits start with, and exactly its length |
| `HuffDecoder.Table.WalkWithin` | exjld/miniz.h:1882-1886 | the bounded walk stops at a leaf or at the last bit there is |
| `BitReader.Reader.PullByte` | exjld/miniz.h:1820-1845 | one byte moves to the bit buffer, a zero byte past the end of all input; bits delivered, bits buffered and bytes unread remain the whole input |
| `BitReader.Reader.GetBits` | exjld/miniz.h:1856-1864 | delivers the next n bits of the input, or suspends with nothing consumed when more input is to come |
| `BitReader.Reader.Fill` | exjld/miniz.h:1874-1893 | the careful refill takes a byte only while the bits at hand hold no whole code |
| `BitReader.Reader.PullTwo` | exjld/miniz.h:1909-1912 | the two-byte refill keeps the whole input |
| `BitReader.Reader.PullFour` | exjld/miniz.h:2176-2181 | the 32-bit refill of the fast loop keeps the whole input |
| `BitReader.Reader.HuffDecode` | exjld/miniz.h:1902-1929 | the symbol is the one whose code starts the unread input, the same whatever arrives later; a suspended call resumes. The documentation at lines 1867-1873 and 1894-1901 says it never reads a byte it does not need; that is false of the two-byte path, and the contract states exactly when a whole byte is left over |
| `BitReader.TakesTooMuch` | exjld/miniz.h:1894-1929 | a run in which it does: two bytes at hand, a code of one bit, and both bytes are taken |
| `BitReader.ReadsWithoutCode` | exjld/miniz.h:2090-2092 | a code that uses no symbol is accepted, and one read with it yields symbol zero and takes no bits, although none spell it; `OutsideRuns.AcceptNoStream` is a whole run in which this happens |
| `BitReader.Reader.FastDecode` | exjld/miniz.h:2190-2204 | with fifteen bits buffered the symbol is decoded without looking at the input |
| `BitReader.Reader.TakeBytes` | exjld/miniz.h:2035-2041 | whole bytes come straight from the input when no bits are buffered |
| `BitSource.Source.NextSymbol` | exjld/miniz.h:1902-1929 | for every split of the input into pieces the symbol read is that of the unsplit input, and what is left is what follows it; the bits taken spell the symbol unless no code continues the input |
| `BitSource.Source.NextBits` | exjld/miniz.h:1856-1864 | the same for a field of n bits |
| `BitSource.Source.FastSymbol` | exjld/miniz.h:2190-2204 | the fast loop's symbols are those of the unsplit input too |
| `BitSource.Source.Align` | exjld/miniz.h:2003-2003 | skips exactly to the next byte boundary of the input |
| `BitSource.Source.NextBytes` | exjld/miniz.h:2035-2041 | bulk bytes are the next bytes of the unsplit input |
| `BitSource.SameSymbol` | exjld/miniz.h:1796-1814 | whatever has been supplied so far, the symbol that starts the unread input is the one found |
| `RadixSort.Distribute` | exjld/miniz.h:2594-2596 | one pass writes the buckets of the digit one after the other, each in the order of the input |
| `RadixSort.Sort` | exjld/miniz.h:2574-2604 | the result, in whichever buffer it lies and also when the high-byte pass is skipped, is a permutation of the input, ascending by key, with equal keys in their original order |
| `MinRedundancy.PickFirst` | exjld/miniz.h:2620-2624 | the first pick takes the lightest weight there is; no leaf that is still needed is overwritten |
| `MinRedundancy.PickSecond` | exjld/miniz.h:2625-2629 | the second pick takes the next lightest; the sum stays below 65536, so the 16-bit cast loses nothing |
| `MinRedundancy.BuildParents` | exjld/miniz.h:2616-2630 | the array ends with the parents of all inner nodes, and every merge took the two lightest weights left |
| `MinRedundancy.ParentsToDepths` | exjld/miniz.h:2631-2633 | parents are replaced by depths in place |
| `MinRedundancy.GrandparentDoubles` | exjld/miniz.h:2619-2630 | the weight at least doubles every two levels up |
| `MinRedundancy.DepthBound` | exjld/miniz.h:2654-2654 | with counts that sum below 65536 no inner node is deeper than 29, so no length exceeds 30 and the histogram index stays in range |
| `MinRedundancy.OneLevel` | exjld/miniz.h:2639-2649 | one level: each slot its inner nodes leave over becomes a leaf one deeper than the node it went into |
| `MinRedundancy.DepthsToLeaves` | exjld/miniz.h:2634-2650 | depths of inner nodes become leaf lengths in place: non-increasing, between 1 and 30, with Kraft sum exactly 1 |
| `MinRedundancy.Telescope` | exjld/miniz.h:2616-2650 | leaves and inner nodes merged so far, weighted with their depths, balance against the merges |
| `HuffmanBound.Merge` | exjld/miniz.h:2608-2651 | from any prefix code for the weights there is one with the two lightest merged that is cheaper by their sum |
| `HuffmanBound.LowerBound` | exjld/miniz.h:2608-2651 | every prefix code costs at least the sum of all greedily merged weights |
| `MinRedundancy.NodeFib` | exjld/miniz.h:2619-2630 | an inner node at depth d and the heavier of its two sides, weighted with the Fibonacci numbers F(d + 1) and F(d), weigh no more than the root |
| `MinRedundancy.LeafFib` | exjld/miniz.h:2616-2650 | a symbol with a code of l bits has at most one part in F(l + 1) of all occurrences |
| `MinRedundancy.CodeLengths` | exjld/miniz.h:2608-2651 | for every ascending list of positive counts summing below 65536 the in-place passes end with lengths that never grow with the count, have Kraft sum exactly 1, are at most 30, form a code that no prefix code for these counts beats, and are long for light symbols only |
| `LimitLengths.LongerFill` | exjld/miniz.h:2662-2665 | in a complete code the space above a length is exactly what the longer codes fill |
| `LimitLengths.ShortLeft` | exjld/miniz.h:2668-2673 | while there is excess some shorter code exists to split |
| `LimitLengths.Lengthen` | exjld/miniz.h:2668-2673 | splits a code of the longest length in use below the limit and changes nothing else |
| `LimitLengths.RepaidRound` | exjld/miniz.h:2666-2675 | over every round: no code shorter than some length has been touched, and all codes touched could together not free more than two slots for each code there is |
| `LimitLengths.EnforceMaxCodeSize` | exjld/miniz.h:2655-2676 | a complete histogram of at most 2^max codes ends, after a terminating loop, with the same number of codes and total exactly 2^max; only codes of some length and above are touched, with that account of what they could free |
| `LimitCost.GrowthRate` | exjld/miniz.h:2666-2675 | the bits a code of length l can still grow by, against the share its symbol can have and the space it frees, for every length below 15 |
| `LimitCost.FreedTouched` | exjld/miniz.h:2666-2675 | in ranks: the symbols whose codes were touched, and the space their codes could free |
| `LimitCost.LimitingCost` | exjld/miniz.h:2655-2676 | for every list of counts, limiting a minimum-redundancy code of n symbols to 15 bits lengthens what it encodes by at most n / 270 bits per occurrence |
| `CodeBuilder.HandedAccepted` | exjld/miniz.h:2709-2711 | a full histogram handed out to the ranked symbols makes lengths the decoder accepts |
| `CodeBuilder.AssignCodes` | exjld/miniz.h:2714-2726 | every symbol's stored code is the reversed canonical code for the lengths |
| `CodeCost.FitsDecodable` | exjld/miniz.h:2084-2092 | any lengths that fit the decoder's code space satisfy the inequality of Kraft and McMillan on the symbols that occur |
| `CodeCost.LimitedNearly` | exjld/miniz.h:2696-2711 | limited lengths handed out by rank, against every other code for the same counts |
| `CodeBuilder.OptimizeTable` | exjld/miniz.h:2678-2727 | exactly the used symbols get codes, none longer than the limit, a rarer symbol never a shorter one; the lengths pass the decoder's completeness test and the codes are the ones it decodes; with the limit of 15 no code the decoder accepts is cheaper by more than one bit for every 270 occurrences of each symbol of the alphabet |
| `CodeBuilder.StaticTable` | exjld/miniz.h:2684-2686 | the same codes for given lengths |
| `CodeLens.Packer.FlushRepeats` | exjld/miniz.h:2745-2761 | a pending repeat is written as itself or as one run item, and only behind a length |
| `CodeLens.Packer.FlushZeroRun` | exjld/miniz.h:2763-2784 | a pending run of zeros is written as itself or as one run item |
| `CodeLens.Packer.Add` | exjld/miniz.h:2821-2840 | after each length at most one of the two run counters is nonzero, and items plus pending runs expand to the lengths taken in |
| `CodeLens.Packer.Pack` | exjld/miniz.h:2815-2845 | the packed bytes expand to exactly the list, are no more than it, and the symbol counts are those of the items |
| `CodeLens.LensRoundTrip` | exjld/miniz.h:2131-2152 | packed lengths written with any code for their symbols and read back are the lengths, whatever follows |
| `LzTokens.CopyUnique` | exjld/miniz.h:2270-2312 | the LZ77 copy is decided by its start, length and distance, overlap included (section 3.2.3 of RFC 1951) |
| `LzTokens.LargeDist` | exjld/miniz.h:2551-2567 | above 511 symbol and extra bits of a distance depend on its high byte only, so the small and large tables agree |
| `EncoderTables.LengthTable` | exjld/miniz.h:2466-2497 | run by run, the entries of the encoder's length symbol and extra-bit tables, for all 256 indices |
| `EncoderTables.SmallDistTable` | exjld/miniz.h:2499-2549 | the same for the 512 entries of the small distance tables |
| `EncoderTables.LargeDistTable` | exjld/miniz.h:2551-2567 | the same for the entries of the large distance tables that are used |
| `LzTokens.LenRoundTrip` | exjld/miniz.h:2466-2497 | symbol and extra bits of every length 3 to 258 give it back through the decoder's tables |
| `LzTokens.DistRoundTrip` | exjld/miniz.h:2499-2567 | the same for every distance 1 to 32768 |
| `LzTokens.TokenRoundTrip` | exjld/miniz.h:2244-2259 | the bits of a literal or match decode to it, whatever follows |
| `LzTokens.BodyRoundTrip` | exjld/miniz.h:2160-2314 | the body of a block decodes to what its tokens play, for every token list and every code that has their symbols |
| `LzBuffer.Codes.RecordLiteral` | exjld/miniz.h:3466-3476 | one more literal token is in the buffer, counted, whatever the flag byte held before |
| `LzBuffer.Codes.RecordMatch` | exjld/miniz.h:3478-3506 | one more match token is in the buffer, counted under the symbols the emitter will use |
| `LzBuffer.Codes.Seal` | exjld/miniz.h:3070-3071 | the fix-up at the end of a block leaves a buffer that parses to exactly the recorded tokens |
| `LzBuffer.MoreToRead` | exjld/miniz.h:3002-3003 | the reading loop's guard holds exactly while tokens are left |
| `LzBuffer.LoadFlags` | exjld/miniz.h:3004-3005 | loading a flag byte with its end mark gives the flags of the next group |
| `LzBuffer.ReadToken` | exjld/miniz.h:3006-3033 | lowest flag and bytes at the cursor are the next recorded token, and the rest follows |
| `BitWriter.Writer.PutBits` | exjld/miniz.h:2729-2743 | the bits go behind all bits written before; bytes past the end of the buffer are dropped and counted |
| `BitWriter.Writer.Fits` | exjld/miniz.h:2737-2738 | the cursor is below the end exactly when nothing was dropped |
| `Emitter.EmitPlain` | exjld/miniz.h:2997-3038 | the portable loop writes exactly the bits of the block body and reports success exactly when they fit |
| `Emitter.FastTokens` | exjld/miniz.h:2919-2968 | one match or up to three literals of the same flag byte are gathered; never more than 64 pending bits |
| `Emitter.FlushWord` | exjld/miniz.h:2970-2976 | one 64-bit store moves the complete bytes out and keeps the rest |
| `Emitter.EmitFast` | exjld/miniz.h:2902-2995 | the 64-bit loop writes the same bits as the portable one and succeeds on exactly the same blocks |
| `Blocks.HeaderRoundTrip` | exjld/miniz.h:2061-2071 | the header of a dynamic block read back gives both codes (section 3.2.7 of RFC 1951) |
| `Blocks.FixedComplete` | exjld/miniz.h:2046-2059 | both fixed codes are complete |
| `Blocks.StoredRoundTrip` | exjld/miniz.h:2002-2042 | length, complement and bytes of a stored block decode to the bytes from any bit position (section 3.2.4 of RFC 1951) |
| `Blocks.DynamicBlock` | exjld/miniz.h:2060-2314 | a dynamic block decodes to what its tokens play on the output so far, whatever follows |
| `Blocks.FixedBlock` | exjld/miniz.h:2046-2314 | so does a fixed block |
| `DynamicHeader.BuildCodes` | exjld/miniz.h:2798-2801 | the codes built for the block have every symbol its tokens and the end of the block use, and are nearly the cheapest there are |
| `DynamicHeader.TokensFit` | exjld/miniz.h:2691-2694 | the code buffer cannot hold so many tokens that a 16-bit symbol count overflows |
| `DynamicHeader.PackLengths` | exjld/miniz.h:2810-2847 | both length lists are packed in one list, and the code that sends them has every item |
| `DynamicHeader.StartDynamic` | exjld/miniz.h:2789-2873 | writes a header that decodes to the codes the block is written with |
| `BlockSize.SealedSize` | exjld/miniz.h:3466-3506 | tokens take 9 or 25 eighths of a byte in the code buffer, flags included, so what it holds is bounded |
| `BlockSize.FixedToken` | exjld/miniz.h:2893-2893 | with the fixed codes a literal takes at most 9 bits and a match at most 31 |
| `BlockSize.BodyCost` | exjld/miniz.h:2997-3038 | the bits of a body are the cost of its two codes for the symbol counts, and extra bits that no code changes |
| `BlockSize.NotMuchWorse` | exjld/miniz.h:3111-3117 | a body with codes of its own is longer than with the fixed ones by at most 320 / 270 bits per token |
| `BlockSize.OwnBodySize` | exjld/miniz.h:3111-3117 | whatever the code buffer holds, its body with codes of its own takes less than 675000 bits: the case the source calls extremely unlikely, if not impossible, is impossible |
| `Flusher.WriteFixed` | exjld/miniz.h:2875-2894 | a fixed block always fits and is written whole |
| `Flusher.WriteDynamic` | exjld/miniz.h:3042-3048 | a block with codes of its own always fits and is written whole: header, tokens and end of block, with room left for what a flush adds |
| `Flusher.WriteStored` | exjld/miniz.h:3095-3110 | the bytes are still in the dictionary, the length fits 16 bits with its complement, and the stored bytes are the expansion of the discarded tokens |
| `Streams.CarriesBlock` | exjld/miniz.h:1999-2315 | a stream that carries some data followed by a block carries the data with the block's |
| `Dictionary.Dict.Fill` | exjld/miniz.h:3517-3561 | takes in bytes up to the longest match; the circular dictionary with its mirrored head holds the last 32768 bytes |
| `Dictionary.Dict.Compare` | exjld/miniz.h:3270-3274 | counts the bytes that repeat, read without wrapping thanks to the mirrored head |
| `Dictionary.Dict.FindMatch` | exjld/miniz.h:3238-3283 | whatever the hash chains hold, a reported match is longer than the one given, no further than the dictionary, and repeats the source byte for byte, overlap included |
| `Dictionary.Dict.FindRun` | exjld/miniz.h:3573-3586 | a reported run repeats the byte before the lookahead and goes on as long as that byte does; none is reported only if there is no run of three |
| `Dictionary.Dict.Advance` | exjld/miniz.h:3626-3630 | moving on keeps the window of the last 32768 bytes |
| `Parser.ParseMatch` | exjld/miniz.h:3601-3603 | recording a match that repeats the source keeps the tokens expanding to the source |
| `Parser.Parse.Decide` | exjld/miniz.h:3597-3625 | every choice between the match found and the one held back keeps the tokens expanding to the source up to the lookahead, less the one byte a held match covers |
| `Parser.Parse.Step` | exjld/miniz.h:3567-3630 | one step of the lazy parser keeps this and uses up at least one byte |
| `Deflater.WriteBlock` | exjld/miniz.h:3084-3117 | whichever form the block takes, stored, fixed or with its own codes, it fits with room for what a flush adds, and decodes to the same bytes; the second try with the fixed codes is never made |
| `Deflater.PutSuffix` | exjld/miniz.h:3119-3141 | padding and checksum, or an empty stored block, follow the block, fit, and leave no bits kept back |
| `Deflater.Compressor.FlushBlock` | exjld/miniz.h:3050-3180 | the assertion at line 3143 holds for every block and every flush; what has been delivered then carries the source up to the new start, or ends the stream with it |
| `Deflater.Compressor.StepAndFlush` | exjld/miniz.h:3626-3643 | a step and, when due, a block: the stream keeps carrying the parsed part of the source |
| `Deflater.Compressor.CompressNormal` | exjld/miniz.h:3508-3649 | for every input and every split into calls all of it is taken in and nothing fails; when flushing the lookahead is drained |
| `Deflater.Compressor.Compress` | exjld/miniz.h:3672-3742 | for every input and every flush, with nothing to go wrong: after a sync or full flush the delivered bytes, with no bits kept back, carry everything taken in; after finishing they decode to exactly the source, with the source's Adler-32 behind them in a zlib stream |
| `Deflater.WholeStream` | exjld/miniz.h:3119-3130 | header, blocks and trailer of a finished stream decode as a whole |
| `Checksums.NoOverflow` | exjld/miniz.h:1328-1344 | 5552 bytes is the longest block whose deferred sums stay below 2^32 |
| `Checksums.Adler32` | exjld/miniz.h:1323-1346 | reduction deferred over blocks and eight-way unrolling give the per-byte definition (section 8.2 of RFC 1950) |
| `Checksums.AdlerSplit` | exjld/miniz.h:2342-2364 | checksumming in pieces is checksumming the whole |
| `Checksums.TableEntry` | exjld/miniz.h:1352-1355 | each of the sixteen table words is four polynomial steps of its index |
| `Checksums.TwoNibbles` | exjld/miniz.h:1361-1363 | the two table look-ups for a byte are the eight bit steps of the polynomial |
| `Checksums.Crc32` | exjld/miniz.h:1351-1366 | the nibble loop computes the bitwise CRC-32 |
| `Checksums.CrcSplit` | exjld/miniz.h:1351-1366 | checksumming in pieces is checksumming the whole |
| `OutWindow.Sink.Take` | exjld/miniz.h:2330-2338 | what the caller has taken and what waits in the window is the whole output |
| `OutWindow.Sink.MakeRoom` | exjld/miniz.h:2272-2274 | when the window is full the caller empties it and output goes on at its start |
| `OutWindow.Sink.CopySlow` | exjld/miniz.h:2270-2280 | the byte-at-a-time path, suspended as often as need be, appends the LZ77 copy |
| `OutWindow.Sink.CopyEights` | exjld/miniz.h:2282-2298 | eight bytes at a time, for distances no shorter than the match, append the start of the LZ77 copy |
| `OutWindow.Sink.CopyThrees` | exjld/miniz.h:2300-2312 | three at a time append the rest of it |
| `OutWindow.Sink.CopyMatch` | exjld/miniz.h:2261-2312 | for every length and valid distance, with overlap, wrap-around and suspension, whichever path is taken the output grows by exactly the LZ77 copy |
| `Inflater.TakeLens` | exjld/miniz.h:2132-2152 | the code lengths read are those of the reference decoder, and the bits taken spell them unless the reference decoder leaves the format on them; the fill never passes its 457 bytes |
| `Inflater.TakeHeader` | exjld/miniz.h:2061-2158 | the header of every well-formed dynamic block is read as the reference decoder reads it; conversely the bits taken spell what was read, or the reference decoder leaves the format on them |
| `Inflater.TwoSymbols` | exjld/miniz.h:2172-2240 | the fast loop, two symbols to a refill, does what two steps of the reference decoder do |
| `Inflater.TakeRun` | exjld/miniz.h:2162-2241 | literals up to the next other symbol, through both loops |
| `Inflater.TakeBody` | exjld/miniz.h:2160-2314 | every well-formed block body appends exactly what the reference decoder says, and reading stops right behind it; conversely the bits taken spell what came out, or the reference decoder leaves the format on them |
| `Inflater.TakeStored` | exjld/miniz.h:2002-2042 | a stored block: aligned, complement checked, bytes partly from the bit buffer and partly in bulk |
| `Inflater.TakeBlock` | exjld/miniz.h:2000-2314 | one block of any type |
| `Spells.HeaderSpelled` | exjld/miniz.h:2061-2158 | the bits taken for a block header decode to the two codes read from them, whatever follows |
| `Spells.MatchSpelled` | exjld/miniz.h:2244-2259 | the bits taken for a length and a distance decode to that match, whatever follows |
| `Spells.StoredSpelled` | exjld/miniz.h:2002-2042 | the bits taken for a stored block, whatever was skipped to the byte boundary, decode to its bytes |
| `Spells.StreamMore` | exjld/miniz.h:1999-2315 | block after block, the bits taken are part of a stream, and with the last block all of one |
| `BitSource.Source.FromInput` | exjld/miniz.h:1796-1838 | the bits taken are the input's, followed by zero bytes where reading goes on past its end |
| `Departures.LensLeaves` | exjld/miniz.h:2132-2152 | code lengths read up to bits that no code-length code continues: the reference decoder leaves the format there, whatever follows |
| `Departures.TokenNoDist` | exjld/miniz.h:2244-2259 | a length and then no distance, whatever follows |
| `Departures.BodyFar` | exjld/miniz.h:2261-2268 | tokens up to a match that reaches before the output, whatever follows |
| `Departures.BareType` | exjld/miniz.h:2090-2092 | stored and fixed blocks never run out of code; a dynamic block does only with a code of its header that is accepted with one symbol or none |
| `Departures.DepartsOnce` | exjld/miniz.h:1999-2315 | an input leaves the format in one way at most |
| `Departures.DepartedIsNone` | exjld/miniz.h:1999-2315 | an input that leaves the format is no stream: no bits taken from it are one, for any output |
| `Lenient.StreamAgrees` | exjld/miniz.h:1999-2315 | what the inflater makes of a stream is what the reference decoder makes of it |
| `Inflater.Inflate` | exjld/miniz.h:1999-2315 | every well-formed deflate stream is decoded to what it stands for, however the input is split and however often the output window is emptied. For every input: on success the bits taken are a whole deflate stream for the output if and only if the input does not leave the format; if it does, then by a code that the guard at line 2090 accepts with one symbol or none; and the ending `Outside` means that it does |
| `OutsideRuns.AcceptNoStream` | exjld/miniz.h:2090-2092 | a run that accepts an input of which no part is a stream, for any output: a distance code without symbols, a match, and four zero bytes come out |
| `OutsideRuns.StopAtNoMeaning` | exjld/miniz.h:2244-2254 | a run on a fixed block with symbol 286, whose codes are complete: it ends outside |
| `Zlib.Decompress` | exjld/miniz.h:1984-2370 | a zlib stream: a bad header is refused; otherwise output and unread input are right and the status tells whether the checksum matches. For every input: when checksums come to be compared, the bits taken are a zlib stream for the output if and only if its blocks do not leave the format, and it finishes if and only if the stream's checksum is the Adler-32 of the output |
| `Zlib.DeliveredDecodes` | exjld/miniz.h:3073-3130 | what the compressor delivers as a zlib stream is one the inflater accepts, with nothing behind it |
| `Zlib.RoundTrip` | exjld/miniz.h:1931-2371 | a stream as the compressor delivers it, cut into any pieces, inflates to its source |
| `Zlib.CompressAndInflate` | exjld/miniz.h:3672-3742 | any input, in any calls with any flushes, compressed with any options, finished and cut up anywhere, inflates to itself |
| `ZipNames.Trichotomy` | exjld/miniz.h:4393-4417 | of two names one comes first in the folded order or they differ in case only, and never two of these |
| `ZipNames.AtMostTransitive` | exjld/miniz.h:4393-4417 | the folded order is transitive |
| `ZipNames.Less` | exjld/miniz.h:4393-4418 | the comparison loop decides the folded order |
| `ZipNames.Compare` | exjld/miniz.h:4822-4842 | the sign of the result is the order, and it is zero exactly on names that differ in case only |
| `ZipIndex.SiftDown` | exjld/miniz.h:4441-4454 | the heap is restored below the root and only the order changes |
| `ZipIndex.HeapSort` | exjld/miniz.h:4431-4477 | leaves a permutation sorted by folded name |
| `ZipIndex.Locate` | exjld/miniz.h:4844-4867 | finds an entry with the folded name if and only if there is one |
| `ZipIndex.Scan` | exjld/miniz.h:4885-4919 | finds the first entry with the folded name if and only if there is one |
| `ZipIndex.SearchAgrees` | exjld/miniz.h:4869-4919 | for every directory and every query the sorted search succeeds exactly when the scan does, on an entry with an equal folded name |
| `ZipRecords.CutIs` | exjld/miniz.h:5421-5422 | a 16-bit field keeps a number modulo 65536, a 32-bit field modulo 2^32 |
| `ZipRecords.ReadBack` | exjld/miniz.h:5627-5673 | every field read at its offset gives the number written there, as far as it fits |
| `ZipReader.ReadIndex` | exjld/miniz.h:4569-4602 | the indexing loop accepts exactly the directories whose records all pass, and returns their offsets |
| `ZipReader.StatBack` | exjld/miniz.h:4745-4770 | a directory record read back is the record written, as far as its fields hold it |
| `ZipReader.IndexBack` | exjld/miniz.h:4569-4602 | the indexing loop over the writer's directory returns every record in order, or refuses exactly when some record has sizes the reader refuses |
| `ZipReader.DataFound` | exjld/miniz.h:5183-5196 | the local header leads the reader to the data if and only if the name is shorter than 65536 bytes |
| `ZipReader.OpenArchive` | exjld/miniz.h:4515-4602 | from the end record on, opening gives the directory and its offsets or refuses |
| `ZipReader.ContentsBack` | exjld/miniz.h:6292-6344 | opening a finished archive gives its entries in order |
| `ZipWriter.Zip.Open` | exjld/zip.c:216-345 | succeeds exactly when name, counts, offsets and medium allow; the closed entries stay as they are either way |
| `ZipWriter.Zip.Write` | exjld/zip.c:531-567 | size and CRC become those of all writes so far, also of a failed one; the bytes or the compressor's output go behind the entry |
| `ZipWriter.Zip.PutBuf` | exjld/miniz.h:5615-5625 | the compressor's output goes behind what came before; after a failure nothing more is taken |
| `ZipWriter.Zip.Seal` | exjld/miniz.h:5627-5719 | header and directory record are those of the entry; the archive ends behind it |
| `ZipWriter.Zip.Close` | exjld/zip.c:415-488 | exactly one entry is added, with the name, the bytes of all writes and what stands for them; the archive ends at header offset + 30 + name length + compressed size; if closing fails nothing was added |
| `ZipWriter.Zip.Finalize` | exjld/miniz.h:6292-6344 | succeeds exactly when it fits; records, directory and end record then make up the file |
| `ZipWriter.KeptPrefix` | exjld/zip.c:216-345 | while entries are only added, the bytes of closed ones do not change |
| `ZipWriter.Run` | exjld/zip.c:203-567 | over any run of open, write and close, whatever fails, local records stay disjoint, ordered and gap-free up to the archive size, entries are only added and no byte of a closed one changes |
| `ZipArchive.ReaderAgrees` | exjld/miniz.h:4569-4602 | a reader gets back exactly the entries that were added, if and only if every name is shorter than 65536 bytes and every size below 2^32 - 1 |
| `ZipLimits.LongNameLost` | exjld/zip.c:446-446 | a run of the writer with a name of 65536 bytes, whose archive is not read back: the length is cut to 16 bits |
| `ZipLimits.LargeDataLost` | exjld/miniz.h:5668-5668 | a run of the writer with any 2^32 - 1 bytes or more that deflate well: the entry is added, and a reader does not get it back |
| `ZipLimits.LargeDataExists` | exjld/miniz.h:5668-5668 | there are such data |
| `ZipArchive.AddStored` | exjld/zip.c:531-567 | a stored entry is added if and only if its name is not empty, there are fewer than 65535 files, offsets and directory stay below 2^32 and the medium has room; it then stands for the bytes of its writes, one after the other |
| `ZipArchive.AddDeflated` | exjld/zip.c:216-488 | an entry written through the compressor in any number of calls is added if and only if the compressor's output fits by the same conditions, and its bytes then inflate to the bytes of its writes |
| `ZipArchive.Extract` | exjld/zip.c:249-270 | from a finished archive the first entry with the name, up to case, is found if there is one, and its data comes back exactly |
| `ZipExtract.Decompress` | exjld/miniz.h:5257-5306 | for any decompressor that keeps to its status contract the loop ends; it feeds successive pieces of the compressed bytes, delivers exactly what comes out, and fails only if a read fails, the callback refuses, the decompressor fails, or more comes out than declared |
| `ZipExtract.CopyStored` | exjld/miniz.h:5234-5256 | a stored entry is delivered byte for byte in pieces of at most 64K |
| `ZipExtract.Extract` | exjld/miniz.h:5143-5323 | the callback gets contiguous chunks from offset zero; success on an entry with data means they total the declared size and have the declared CRC; when reads and callback do not fail, it succeeds if and only if the stored bytes, or what the decompressor puts out, do |

## Left out

- `tdefl_compress_fast`, the parser of level 1, and the `tdefl_find_match` with unaligned loads: the portable forms are modelled.
- The 32-bit bit buffer of the inflater: the 64-bit one is modelled.
- Compressing into a caller's buffer, a null data pointer and a failing output callback of the compressor: its output is returned call by call, and `ZipWriter.Zip.PutBuf` models the callback that can fail.
- Inflating into a buffer that does not wrap, and the error it gives for a match that reaches too far back.
- What the source puts out once it has left the format: `Inflater.TakeRest` and `Inflater.TakeDist` stop at length symbols 286 and 287 and distance symbols 30 and 31, where the source reads zero entries of its tables, and `Inflater.PlayToken` at a match before the start of the output, where the source copies what the window happens to hold. These stops are the ending `Outside`.
- Inflater.Inflate: takes a `limit` on rounds, because past the end of its input the source reads zero bits for ever; every stream that decodes is decoded when the limit exceeds its number of bits. Where a code of one symbol or none meets other bits the source reads symbol zero and goes on; what then comes out is stated (`Lenient.ReadStream`) for a distance code without symbols only.
- OutWindow.Sink.CopyMatch: the window must hold the largest distance used; the inflater is given one of at least 32768 bytes, as the source's zlib header check demands.
- ZipLimits.LargeDataLost: the compressed bytes are any that inflate to the data, because no bound is proved on what the compressor delivers for data that repeats, whatever its hash chains hold.
- MinRedundancy.CodeLengths: optimality is about the lengths before they are limited; what the limit of 15 bits costs is bounded by `LimitCost.LimitingCost`, the limit of 7 bits for the code-length code is not.
- The symbol tables of the encoder and decoder are given by the rules that generate them, with their entries listed in `EncoderTables` and `LzTokens`; positions in the source are unbounded where the code keeps 32-bit ones; 16-bit hash-chain entries are modelled as such.
- The key and index columns of a ranked symbol are kept in two arrays while lengths are computed.
- ZipWriter.Zip.Write: is called only while an entry is open; writing or closing without one is a null name in the source.
- Alignment of entries in the file, comments, extra fields and external attributes: `zip.c` leaves them empty or zero.
- Opening an archive for appending, and converting a reader into a writer.
- The scan for the end record: reading starts from a located one.
- Search with the case-sensitive, ignore-path and comment options.
- ZipExtract.Decompress: the inflater in the extraction loop is any decompressor with the same status contract, a function of its calls; the modelled inflater is a method on objects and is not shown to be one. `ZipArchive.Extract` uses the modelled one.
- PNG writing, DOS time conversion, stdio, file attributes, directories and path handling of extraction, and allocation failure.
- The rest of the repository: JNI wrappers, the linker's code generation and its resource tables.
