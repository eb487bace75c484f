# Verified model of the JPEG entropy coders

The project models the entropy coders of the bundled IJG jpeg-9 library and the baseline decoder of
luvcview, and proves that what one side writes the other side reads.

**Arithmetic coding** (`arith/`). `ArithEncoder.Encoder` and `ArithDecoder.Decoder` have the registers,
counters and byte input or output of `jcarith.c` and `jdarith.c`; every step is proved to refine an exact
interval of binary fractions (`CodeInterval`). On them stand the coefficient models for sequential and
progressive scans, restart intervals, the marker-terminated segments, the scan script check, and whole
images sent in the scans of a script. Main results:

- any list of decisions, coded, ended and followed by a marker, is decoded as it was, with equal statistics
  before every decision, and no shorter segment would do (`DecisionRoundTrip.EncodeAndDecode`);
- every decision of a value stands in the bin that tables F.4 and F.5 of ITU-T T.81 give it, and every segment of a
  scan starts from the estimates it should (`CoefficientBins.BandUsesBins`, `ScanStatistics.FirstUse`);
- a scan of any kind, with any restart interval, is decoded without an error if and only if its DC
  differences are at most 2^15, and then every block gets what was coded of it (`ScanRoundTrip.EncodeAndDecode`);
- the passes of a script leave every block with exactly the bits that were sent of it
  (`ProgressiveImage.SendImage`); the recommended progression sends every image completely, whatever its
  coefficients (`ProgressiveImage.SendSimpleProgression`).

**Huffman coding** (`huff/`). The construction of optimal tables, the limit of 16 bits, derived tables, the
bit writer and the encoder routines of `jchuff.c`, and the lookup tables, bit reader and decoding loops of
`luvcview_port/utils.c`. Main results:

- the code sizes are those of a cheapest prefix code for the counts, their Kraft sum is 1, and limiting keeps
  it so (`HuffmanTree.AssignCodeSizes`, `PrefixCodes.OptimalAmongPrefixCodes`, `LengthLimit.LimitLengths`);
- the counts of the gathering pass tell the length of the output for any codes (`ScanLength.BitsCounted`);
- table-driven decoding agrees with decoding bit by bit for every legal table and every bit string, and stops
  (`FastDecoder.DecRec`);
- what the encoder writes, with restarts, decodes to the same blocks, and encoding fails if and only if a value
  is out of range or a symbol has no code (`HuffmanRoundTrip.EncodeAndDecode`);
- with tables made by the gathering pass no symbol is ever without a code (`HuffmanRoundTrip.TwoPass`,
  `HuffmanRoundTrip.TwoPassModerate`).

`Powers` holds the arithmetic that both clusters share. It also declares `Key`: invariants with many parts are
stated as `forall k :: Key(k) ==> ...`, so that a proof which only passes one on does not unfold it, and a proof
which needs its parts asserts `Key(0)`.

A method whose contract speaks of old state is proved against functions of values (`Run`, `AfterMcus`,
`ScanTail`, `Progress`, `ReadSymbol`); what is promised of those functions is proved in the lemmas beside them,
and what they compute is tied to the source's numbers there (`Estimation`, `CoefficientBins`, `ScanStatistics`,
`ScanMeaning`).

## Model

| member | source | states |
|---|---|---|
| `ProbabilityTable.TableClosed` | mjpg-streamer-code-181/jpeg-9/jaricom.c:31-153 | every entry, packed and unpacked as the source does it, has a Qe of 1 to 0x5B12 and both successors inside the table; the entry for the fixed estimate 113 is reached only from itself and stays there |
| `Estimation.EstimatesAdapt` | mjpg-streamer-code-181/jpeg-9/jaricom.c:31-153 | after a more probable symbol Qe does not grow, and after a less probable one it does not shrink unless the symbols change places, which happens only at estimates near one half |
| `Estimation.StepInFull` | mjpg-streamer-code-181/jpeg-9/jcarith.c:218-311 | one decision in full: the entry its bin points to, the part of the interval for the symbol coded, doubling up to 0x8000, the next state of the bin, and no other bin changed |
| `ArithEncoder.Encoder.constructor` | mjpg-streamer-code-181/jpeg-9/jcarith.c:904-910 | reset registers denote the whole unit interval, with nothing coded |
| `ArithEncoder.Encoder.ArithEncode` | mjpg-streamer-code-181/jpeg-9/jcarith.c:218-311 | after each decision the registers C, A, ct, the buffered byte, the stacked 0xFF bytes, the pending zeros and the statistics denote exactly the interval and statistics that the coded list with that decision appended leads to |
| `ArithEncoder.Encoder.Estimates` | mjpg-streamer-code-181/jpeg-9/jcarith.c:941-942 | with the source's table, whatever was coded: the fixed bin has Qe 0x5A1D and zero as its more probable symbol, and a bin not used since its area was cleared is at entry 0 with zero as its more probable symbol |
| `ArithEncoder.Encoder.NoEarlyCarry` | mjpg-streamer-code-181/jpeg-9/jcarith.c:266-280 | a carry never arrives while no byte is buffered |
| `CodeRegister.RegisterBound` | mjpg-streamer-code-181/jpeg-9/jcarith.c:139-147 | C stays below 2^28, also once it is shifted to the byte boundary |
| `ArithEncoder.Encoder.FinishPass` | mjpg-streamer-code-181/jpeg-9/jcarith.c:132-193 | the bytes written are a segment of the interval of all coded decisions: they spell its point with the most trailing zeros, do not end in a zero byte, and every 0xFF is stuffed |
| `CodeInterval.MostTrailingZeros` | mjpg-streamer-code-181/jpeg-9/jcarith.c:139-143 | no other number of the interval is divisible by a higher power of two than the chosen one |
| `Termination.ShortestSegment` | mjpg-streamer-code-181/jpeg-9/jcarith.c:149-193 | any code bytes that decode to the same decisions are at least as many as those of the segment |
| `Termination.SegmentUnique` | mjpg-streamer-code-181/jpeg-9/jcarith.c:132-193 | an interval has only one such segment |
| `Termination.SegmentRoundTrip` | mjpg-streamer-code-181/jpeg-9/jcarith.c:132-193 | in exact arithmetic, a segment reads back as the decisions it was made for and no shorter bytes do; `DecisionRoundTrip` carries this over to the registers of both sides |
| `CodeInterval.RoundTrip` | mjpg-streamer-code-181/jpeg-9/jdarith.c:147-181 | in exact arithmetic, any code point of the final interval reads back every decision and ends with the same interval and statistics; the specification that `DecisionRoundTrip.DecodeDecisions` refines |
| `CodeInterval.ReadBackOnlyInside` | mjpg-streamer-code-181/jpeg-9/jdarith.c:147-181 | conversely, code bytes that read back as some decisions lie in the interval they lead to |
| `CodeInterval.NoDivergence` | mjpg-streamer-code-181/jpeg-9/jdarith.c:147-181 | two decision lists that first differ in the outcome of one decision never share a code point |
| `ByteStream.ReadBackSegment` | mjpg-streamer-code-181/jpeg-9/jdarith.c:113-146 | stuffed bytes up to a marker, followed by anything, read back as the code bytes, the marker and what is behind it |
| `ByteStream.NoMarkerInside` | mjpg-streamer-code-181/jpeg-9/jcarith.c:149-193 | stuffed bytes are longer by the number of 0xFF bytes, and a zero is behind every 0xFF |
| `ArithDecoder.Decoder.ArithDecode` | mjpg-streamer-code-181/jpeg-9/jdarith.c:105-182 | whatever the input, the decision returned is the one whose interval holds the code bytes up to the next marker, followed by zeros; the statistics follow it |
| `ArithDecoder.Decoder.Estimates` | mjpg-streamer-code-181/jpeg-9/jdarith.c:768-769 | the same for the decoder, whatever was read |
| `ArithDecoder.Decoder.RegistersFit` | mjpg-streamer-code-181/jpeg-9/jdarith.c:105-182 | whatever was read, C and A fit their 32-bit variables, also while the next byte is inserted |
| `ArithDecoder.Decoder.NextSegment` | mjpg-streamer-code-181/jpeg-9/jdmarker.c:1257-1379 | with the marker found where restart marker number `desired` should be, reading goes on in the segment that the expected marker, or resynchronization, leads to, with initial registers and the given statistics |
| `RestartMarkers.LostSegments` | mjpg-streamer-code-181/jpeg-9/jdmarker.c:1336-1379 | where one or two segments and their markers are lost, as many empty segments are read in front of the marker found, and then the segment behind it |
| `RestartMarkers.RepeatedSegments` | mjpg-streamer-code-181/jpeg-9/jdmarker.c:1336-1379 | one or two segments that come again are passed over, up to the segment behind the expected marker |
| `RestartMarkers.AnyMarker` | mjpg-streamer-code-181/jpeg-9/jdmarker.c:1336-1379 | what is read behind any marker: the expected restart marker and those three to five away are taken; one or two ahead, and any other marker from 0xC0 on, stays and an empty segment is read; everything else is passed over |
| `DecisionRoundTrip.EncodeDecisions` | mjpg-streamer-code-181/jpeg-9/jcarith.c:218-311 | coding any list and ending it appends exactly the stuffed segment of its final interval, and the statistics before every decision are those that the list leads to |
| `DecisionRoundTrip.DecodeDecisions` | mjpg-streamer-code-181/jpeg-9/jdarith.c:105-182 | for every input and every list of bins, the registers return the bits that exact reading of the code bytes gives, with the statistics of that reading before every decision |
| `DecisionRoundTrip.EncodeAndDecode` | mjpg-streamer-code-181/jpeg-9/jdarith.c:105-182 | any decisions coded with any starting statistics, ended, and followed by a marker and anything else, come back bit for bit; both sides have the same statistics before every decision and after the last, in which the fixed bin never adapts and unused bins are at the start of the table; the decoder stops at the marker; no fewer code bytes give these bits |
| `CoefficientModel.DcInAreas` | mjpg-streamer-code-181/jpeg-9/jdarith.c:535-585 | every bin of a readable DC difference, from any context, has an index below 49 |
| `CoefficientModel.AcInAreas` | mjpg-streamer-code-181/jpeg-9/jdarith.c:587-630 | every bin of a band of AC coefficients has an index below 245 |
| `CoefficientModel.RefinementInAreas` | mjpg-streamer-code-181/jpeg-9/jdarith.c:433-501 | the same for a refinement scan |
| `ScanAreas.DecodedInAreas` | mjpg-streamer-code-181/jpeg-9/jdarith.c:241-633 | whatever the input, every decision that decoding an MCU reads, with the restart before it, lies inside these areas |
| `ScanAreas.CodedInAreas` | mjpg-streamer-code-181/jpeg-9/jcarith.c:361-832 | so encoding any MCUs that can be read stays inside these areas, through all restarts |
| `ScanAreas.ItemCodeAreas` | mjpg-streamer-code-181/jpeg-9/jdarith.c:556-566 | a value is coded inside the 49 and 245 bins if and only if the decoder can read it; a larger DC difference needs the bin behind them |
| `ScanAreas.CodedAllocated` | mjpg-streamer-code-181/jpeg-9/jcarith.c:361-832 | encoding any MCUs of 16-bit coefficients, readable or not, stays inside the 64 and 256 bins that are allocated |
| `CoefficientBins.DifferenceUsesBins` | mjpg-streamer-code-181/jpeg-9/jcarith.c:719-770 | the decisions of a DC difference in every bin: not zero in S0, sign in S0 + 1, above one in S0 + 2 or S0 + 3, categories from bin 20 on, lower bits 14 bins behind the category |
| `CoefficientBins.ContextBounds` | mjpg-streamer-code-181/jpeg-9/jcarith.c:761-765 | the next context: 0 up to 2^(L-1), or for L = 0 only a zero difference; 4 and 8 for small differences up to 2^U; 12 and 16 above, by sign |
| `CoefficientBins.DcInOrder` | mjpg-streamer-code-181/jpeg-9/jcarith.c:719-770 | and these decisions in their order |
| `CoefficientBins.BandUsesBins` | mjpg-streamer-code-181/jpeg-9/jcarith.c:451-549 | the decisions of a band in every bin: for coefficient k + 1, bin 3k tells whether the block ends, where that is asked, bin 3k + 1 whether it is not zero, bin 3k + 2 whether it is above one and above two; signs in the fixed bin; the categories of magnitudes from 3 on, at indexes up to Kx from bin 189, and above Kx from bin 217 |
| `CoefficientBins.LargeOnly` | mjpg-streamer-code-181/jpeg-9/jcarith.c:523-535 | so without a magnitude of 3 or more behind Kx nothing is in bins from 217 on, and without one up to Kx nothing in bins 189 to 216 |
| `CoefficientBins.AcInOrder` | mjpg-streamer-code-181/jpeg-9/jcarith.c:503-548 | the decisions of such a coefficient in their order |
| `CoefficientBins.CategoryInOrder` | mjpg-streamer-code-181/jpeg-9/jcarith.c:530-548 | a category is so many times yes and then no, in one bin after the other; then come the lower bits, the highest first, all in the bin 14 places behind the last |
| `CoefficientBins.RefinementUsesBins` | mjpg-streamer-code-181/jpeg-9/jcarith.c:591-684 | the decisions of a refinement in every bin: the end of the block is only asked behind a nonzero coefficient, or at the start, where nothing further was nonzero before; then newly nonzero or the next bit |
| `CoefficientEncoder.EncodeDcDifference` | mjpg-streamer-code-181/jpeg-9/jcarith.c:719-770 | codes exactly the decisions of the difference under its context, in the bins of `DifferenceUsesBins`, and returns the context of `ContextBounds` |
| `CoefficientEncoder.EncodeAcCoefficients` | mjpg-streamer-code-181/jpeg-9/jcarith.c:451-549 | codes exactly the decisions of the band, for any values, and these use every bin as `BandUsesBins` says |
| `CoefficientEncoder.EncodeAcRefinement` | mjpg-streamer-code-181/jpeg-9/jcarith.c:591-684 | codes exactly the refinement decisions, with the end-of-block decisions that the scans before rule out left out, in the bins of `RefinementUsesBins` |
| `CoefficientDecoder.DecodeDcDifference` | mjpg-streamer-code-181/jpeg-9/jdarith.c:535-580 | the decisions read are exactly those of the difference returned, in the same bins, and the next context is the encoder's; it fails if and only if the magnitude exceeds 2^15 |
| `CoefficientDecoder.DecodeAcCoefficients` | mjpg-streamer-code-181/jpeg-9/jdarith.c:319-392 | the decisions read spell the values stored into the block, every bin used as `BandUsesBins` says; it fails if and only if a run leaves the band or a magnitude exceeds 2^15 |
| `RefinementDecoder.DecodeAcRefinement` | mjpg-streamer-code-181/jpeg-9/jdarith.c:432-501 | the decisions read spell refined values of what the block held, in the bins of `RefinementUsesBins`, and every coefficient gets its next bit or its sign |
| `CoefficientDivergence.DcDiverges` | mjpg-streamer-code-181/jpeg-9/jdarith.c:535-580 | two different differences, one of them readable, have diverging decisions |
| `CoefficientDivergence.AcDiverges` | mjpg-streamer-code-181/jpeg-9/jdarith.c:319-392 | so have two different bands |
| `CoefficientDivergence.RefinementDiverges` | mjpg-streamer-code-181/jpeg-9/jdarith.c:432-501 | so have two different refinements of the same values |
| `ScanAgreement.ItemsAgree` | mjpg-streamer-code-181/jpeg-9/jdarith.c:508-633 | if the items coded and the items read, of the kinds the scan expects, do not diverge as decisions, then the items read are the items coded, up to the first one that cannot be read, and reading fails at that one |
| `ScanEncoder.ScanEncoder.constructor` | mjpg-streamer-code-181/jpeg-9/jcarith.c:872-910 | at the start of a scan the DC areas of its components are cleared if it is a first DC scan, their AC areas if it has AC coefficients; every other bin keeps its estimate |
| `ScanEncoder.ScanEncoder.EmitRestart` | mjpg-streamer-code-181/jpeg-9/jcarith.c:318-353 | the segment is written, then the marker; the same areas are cleared, and predictions and contexts are zero again in a first DC scan |
| `ScanDecoder.ScanDecoder.constructor` | mjpg-streamer-code-181/jpeg-9/jdarith.c:709-751 | the decoder clears the same areas |
| `ScanDecoder.ScanDecoder.ProcessRestart` | mjpg-streamer-code-181/jpeg-9/jdarith.c:189-234 | so it does at a restart, where it goes on behind the marker |
| `ScanStatistics.EncoderRestarts` | mjpg-streamer-code-181/jpeg-9/jcarith.c:702-710 | before an MCU: when the interval is used up the segment and the next marker are written and the registers start over, otherwise only the MCU is counted |
| `ScanStatistics.EncoderClears` | mjpg-streamer-code-181/jpeg-9/jcarith.c:331-343 | and then areas and predictions are cleared as at the start of the scan |
| `ScanStatistics.DecoderRestarts` | mjpg-streamer-code-181/jpeg-9/jdarith.c:189-234 | the decoder goes on in the segment that the expected marker leads to, also after a failure |
| `ScanStatistics.DecoderClears` | mjpg-streamer-code-181/jpeg-9/jdarith.c:200-214 | and clears the same |
| `ScanStatistics.RestartSchedule` | mjpg-streamer-code-181/jpeg-9/jcarith.c:702-710 | over a whole scan: a restart after every restart interval, and the markers count from 0 to 7 over and over |
| `ScanStatistics.FirstUse` | mjpg-streamer-code-181/jpeg-9/jcarith.c:872-896 | in every segment of a scan the first decision in a bin is made with the first estimate of the table, and every decision in the fixed bin with the fixed one |
| `ScanStatistics.ScanOnTrack` | mjpg-streamer-code-181/jpeg-9/jcarith.c:361-832 | so it is in every segment, because every decision lies in the tables of a component of the scan |
| `ScanStatistics.StartOnTrack` | mjpg-streamer-code-181/jpeg-9/jcarith.c:872-910 | and in the first segment, whatever the scans before have left |
| `ScanStatistics.DcItemCoding` | mjpg-streamer-code-181/jpeg-9/jcarith.c:719-770 | a DC value is coded as its difference from the last value of its component in the restart interval, in the context that the difference before leaves, in the table and with the bounds of its component |
| `ScanStatistics.BandItemCoding` | mjpg-streamer-code-181/jpeg-9/jcarith.c:772-830 | a band is coded in the AC table of its component with the Kx of that table, a DC bit as one decision in the fixed bin |
| `ScanEncoder.EncodeAnyMcu` | mjpg-streamer-code-181/jpeg-9/jcarith.c:361-832 | each of the five MCU routines restarts when the interval is used up, clearing as `EmitRestart` does, and then codes the items of its blocks, updating predictions, contexts and restart counters |
| `ScanDecoder.ScanDecoder.DecodeMcu` | mjpg-streamer-code-181/jpeg-9/jdarith.c:241-633 | each of the five routines restarts when due, clearing as `ProcessRestart` does, reads items of the expected kinds until one cannot be read, and stores each into its block; after a failure nothing is read until the next restart |
| `ScanBytes.SegmentRead` | mjpg-streamer-code-181/jpeg-9/jcarith.c:318-353 | a reader finds in the bytes of a scan the segment of the current restart interval, its marker and the rest |
| `ScanRoundTrip.McuAgrees` | mjpg-streamer-code-181/jpeg-9/jdarith.c:508-633 | a decoder that agrees with the encoder before an MCU reads its items without a failure if and only if its DC differences are readable, and then agrees again after it |
| `ScanRoundTrip.DecodeScan` | mjpg-streamer-code-181/jpeg-9/jdarith.c:189-633 | over a whole scan: no failure if and only if every DC difference is readable; then every block holds what was coded of it and the decoder's statistics are the encoder's |
| `ScanRoundTrip.EncodeAndDecode` | mjpg-streamer-code-181/jpeg-9/jcarith.c:839-915 | encoding any MCUs and decoding the bytes with a decoder that has kept its own statistics: clean if and only if the DC differences are at most 2^15, then the blocks are restored and the statistics equal again |
| `ScanReadability.ReadableIsDc` | mjpg-streamer-code-181/jpeg-9/jdarith.c:556-566 | of all the values an encoder codes only DC differences can be too large; whether they are depends on predictions and restarts, not on statistics |
| `ScanReadability.SmallScanReadable` | mjpg-streamer-code-181/jpeg-9/jdarith.c:556-566 | DC values of 14 bits and a sign, after the point transform, can always be read |
| `ScanReadability.ExtremesNotReadable` | mjpg-streamer-code-181/jpeg-9/jdarith.c:556-566 | neighbouring DC values -0x8000 and 0x7FFF in a scan with no point transform are encoded, but the decoder gives up on them |
| `Approximation.BlockImproves` | mjpg-streamer-code-181/jpeg-9/jdarith.c:241-501 | storing what a scan has coded of a block that was sent down to some bits leaves it sent down to the scan's bits: DC as (v >> Al) << Al, AC as sign(v) * ((abs v >> Al) << Al) |
| `Approximation.DcRounded` | mjpg-streamer-code-181/jpeg-9/jcarith.c:385-396 | with its bits from al on sent, a DC coefficient is known as the next multiple of 2^al below |
| `Approximation.AcRounded` | mjpg-streamer-code-181/jpeg-9/jcarith.c:470-516 | and an AC coefficient as the next multiple of 2^al towards zero |
| `ScanScript.ValidateScript` | mjpg-streamer-code-181/jpeg-9/jcmaster.c:357-489 | accepts a script as progressive or sequential if and only if it keeps the rules, which are stated over the scans themselves: components in frame order; DC before AC; every coefficient first with its highest bits, then each time with the bit below; and a DC scan, or a scan, for every component |
| `ScanScript.StartPass` | mjpg-streamer-code-181/jpeg-9/jdarith.c:640-690 | refuses and warns if and only if the parameters, or the bits sent before, say so, and keeps its table of bit positions, for distinct components in any order |
| `ScanScript.AcceptedScanExpected` | mjpg-streamer-code-181/jpeg-9/jdarith.c:674-685 | a scan that the encoder accepts is neither refused nor warned about |
| `ScanScript.FollowScript` | mjpg-streamer-code-181/jpeg-9/jdarith.c:640-690 | so over any accepted script |
| `SimpleProgression.FillSimpleProgression` | mjpg-streamer-code-181/jpeg-9/jcparam.c:563-635 | the script is, scan by scan, the one for YCbCr or the general one, as long as the space computed beforehand (10, 2 + 4n or 6n scans); in every prefix the coefficients 1 to 5 of a component are sent if any of 6 to 63 are |
| `SimpleProgression.YccStart` | mjpg-streamer-code-181/jpeg-9/jcparam.c:605-608 | for YCbCr, after two scans luminance coefficients 1 to 5 are at bit 2 and no other AC coefficient is sent |
| `SimpleProgression.YccChroma` | mjpg-streamer-code-181/jpeg-9/jcparam.c:609-613 | both chrominance components are at bit 1 or below before luminance coefficients 6 to 63 are sent |
| `SimpleProgression.YccEnd` | mjpg-streamer-code-181/jpeg-9/jcparam.c:621-622 | the lowest bit of the luminance AC coefficients is complete with the last scan and not before |
| `SimpleProgression.GeneralScriptComplete` | mjpg-streamer-code-181/jpeg-9/jcparam.c:624-635 | for every number of components that script is accepted as progressive and brings every coefficient to bit 0 |
| `SimpleProgression.YccScriptComplete` | mjpg-streamer-code-181/jpeg-9/jcparam.c:603-623 | so is the one for YCbCr |
| `ProgressiveImage.SendScan` | mjpg-streamer-code-181/jpeg-9/jdarith.c:241-501 | one pass over any layout of blocks into MCUs: clean if and only if its DC differences are readable, then every block has what the passes so far have sent of it; blocks outside the layout stay |
| `ProgressiveImage.SendImage` | mjpg-streamer-code-181/jpeg-9/jcarith.c:361-684 | all passes of a script: clean if and only if the DC differences of every pass are readable; then each block whose own passes go step by step is approximated down to the bits sent of it |
| `ProgressiveImage.OwnIsComponent` | mjpg-streamer-code-181/jpeg-9/jcmaster.c:571-645 | for a block that every pass of its component contains, the bits sent of it are the bits the script has sent of the component; dummy blocks that only interleaved scans contain are not such blocks |
| `ProgressiveImage.BlockRestored` | mjpg-streamer-code-181/jpeg-9/jdarith.c:241-501 | such a block is received exactly once the script has sent every bit of its component |
| `ProgressiveImage.SendSimpleProgression` | mjpg-streamer-code-181/jpeg-9/jcparam.c:563-635 | the recommended script is always decoded cleanly, for all 16-bit coefficients, and restores every such block |
| `ProgressiveImage.HalvedReadable` | mjpg-streamer-code-181/jpeg-9/jcparam.c:535-556 | a first DC scan that drops at least one bit never codes a difference above 2^15 |
| `ProgressiveImage.SendSequential` | mjpg-streamer-code-181/jpeg-9/jcarith.c:691-832 | an accepted sequential script: clean if and only if all DC differences are readable, then every block sent is restored |
| `ProgressiveImage.SendSequentialScan` | mjpg-streamer-code-181/jpeg-9/jdarith.c:508-633 | one sequential scan decoded into zero blocks gives the MCUs back, if and only if the DC differences are readable |
| `KraftSum.MergeStep` | mjpg-streamer-code-181/jpeg-9/jchuff.c:1281-1327 | any code yields one for the counts with the two smallest merged that is cheaper by their sum |
| `HuffmanTree.MergeForest` | mjpg-streamer-code-181/jpeg-9/jchuff.c:1307-1326 | joining two chains keeps every used symbol in exactly one chain, linked through `others`, whose node holds the sum of its counts |
| `HuffmanTree.AssignCodeSizes` | mjpg-streamer-code-181/jpeg-9/jchuff.c:1281-1327 | the code sizes are those of the reference merging of the two least counts, the last of equal ones first (`CodeSizes`); they have Kraft sum exactly 1, cost no more than any code sizes that keep Kraft's inequality, and a size needs a Fibonacci number of counts |
| `HuffmanTree.CodeSizesOptimal` | mjpg-streamer-code-181/jpeg-9/jchuff.c:1281-1327 | so have the reference sizes for any counts, which the results below are stated with |
| `PrefixCodes.KraftInequality` | mjpg-streamer-code-181/jpeg-9/jchuff.c:1258-1280 | the word lengths of every prefix code keep Kraft's inequality |
| `PrefixCodes.OptimalAmongPrefixCodes` | mjpg-streamer-code-181/jpeg-9/jchuff.c:1258-1327 | no prefix code for the counts is cheaper than the sizes assigned |
| `HuffmanTree.DepthBelow` | mjpg-streamer-code-181/jpeg-9/jchuff.c:1328-1339 | counts that sum to less than the n-th Fibonacci number give sizes below n - 2 |
| `LengthLimit.ShorterExists` | mjpg-streamer-code-181/jpeg-9/jchuff.c:1353-1357 | the search for a shorter code always ends at one of at least 1 bit |
| `LengthLimit.LongestPaired` | mjpg-streamer-code-181/jpeg-9/jchuff.c:1341-1362 | the longest codes always come in pairs |
| `LengthLimit.LimitLengths` | mjpg-streamer-code-181/jpeg-9/jchuff.c:1341-1363 | the counts become those of the limiting steps of the standard, from the longest size down (`Limited`): all lengths are at most 16, the number of codes and the Kraft sum of 1 are kept, and counts without longer codes are left alone |
| `OptimalTable.Shallow` | mjpg-streamer-code-181/jpeg-9/jchuff.c:1328-1339 | totals below 9227465, a Fibonacci number, never lead to a size above 32 |
| `DeepTree.DeepReached` | mjpg-streamer-code-181/jpeg-9/jchuff.c:1328-1339 | that bound cannot be raised: Fibonacci counts with exactly this total, which the algorithm can handle, lead to a size above 32 |
| `OptimalTable.GenOptimalTable` | mjpg-streamer-code-181/jpeg-9/jchuff.c:1256-1387 | succeeds if and only if no size of the reference merging exceeds 32, always below that total; the table lists every counted symbol once, by increasing size, and its counts are the sizes' counts after limiting, with one of the longest codes, the pseudo-symbol's, taken out |
| `OptimalTable.OptimalAcceptable` | mjpg-streamer-code-181/jpeg-9/jchuff.c:161-259 | such a table is accepted by the derivation if and only if its symbols are in range for a DC or AC table |
| `CanonicalCode.EndGrows` | mjpg-streamer-code-181/jpeg-9/jchuff.c:203-222 | codes of a greater length start behind the extensions of all shorter ones |
| `CanonicalCode.NextCode` | mjpg-streamer-code-181/jpeg-9/jchuff.c:203-222 | the first code is zero, and each is one more than the one before, with zeros behind where it is longer |
| `CanonicalCode.PrefixFree` | mjpg-streamer-code-181/jpeg-9/jchuff.c:203-222 | no canonical code is the beginning of another one |
| `DerivedTable.MakeDerivedTable` | mjpg-streamer-code-181/jpeg-9/jchuff.c:161-259 | accepts a table if and only if its counts fit, leave room for the all-ones code, and its symbols are distinct and in range; then each symbol has its canonical code and every other one has none |
| `DerivedTable.AcceptableIs` | mjpg-streamer-code-181/jpeg-9/jchuff.c:161-259 | acceptable means: at most 256 codes, none all ones or too large for its size, different symbols, up to 15 for DC and 255 for AC |
| `DerivedTable.CodesUsable` | mjpg-streamer-code-181/jpeg-9/jchuff.c:203-245 | in an accepted table no code is the beginning of another one and none is all ones |
| `BitWriter.Writer.EmitBits` | mjpg-streamer-code-181/jpeg-9/jchuff.c:305-341 | exactly the low bits of the code are appended; a size of zero is refused and changes nothing; fewer than 8 bits stay in the buffer |
| `BitWriter.Writer.FlushBits` | mjpg-streamer-code-181/jpeg-9/jchuff.c:385-394 | the bits written since the last flush are the stuffed bytes put out, filled up with ones |
| `BitWriter.Writer.EmitRestart` | mjpg-streamer-code-181/jpeg-9/jchuff.c:489-507 | the same, followed by the marker, with predictions back to zero |
| `BlockEncoder.EncodeOneBlock` | mjpg-streamer-code-181/jpeg-9/jchuff.c:915-1008 | succeeds if and only if all values are in range and all symbols have codes, and then appends the bits of exactly the symbols and values of the block |
| `BlockEncoder.HtestOneBlock` | mjpg-streamer-code-181/jpeg-9/jchuff.c:1121-1189 | succeeds if and only if all values are in range, and then adds exactly the same symbols to the counts |
| `ScanMeaning.SizeAndBits` | mjpg-streamer-code-181/jpeg-9/jchuff.c:926-957 | the size of a value is the number of bits of its magnitude; its bits are the value, or for a negative one the value less one |
| `ScanMeaning.RangeIs` | mjpg-streamer-code-181/jpeg-9/jchuff.c:942-946 | values in range: a DC difference of magnitude up to 2047, other coefficients up to 1023 |
| `ScanMeaning.SymbolsMean` | mjpg-streamer-code-181/jpeg-9/jchuff.c:959-1005 | the symbols of a block, expanded as runs of zeros and values, are its coefficients; the end of the block is marked if and only if zeros are missing |
| `ScanMeaning.SymbolsRight` | mjpg-streamer-code-181/jpeg-9/jchuff.c:959-1005 | each symbol has the size of its value and at most 15 zeros, or is 0xF0; the end of the block comes last, and 0xF0 never right before it |
| `ScanMeaning.LastInMcu` | mjpg-streamer-code-181/jpeg-9/jchuff.c:1036-1048 | the prediction of a block is the DC value of the last block of its component before it |
| `ScanMeaning.LastInRun` | mjpg-streamer-code-181/jpeg-9/jchuff.c:489-507 | across MCUs too, and zero at the start of every restart interval |
| `ScanMeaning.CutJoins` | mjpg-streamer-code-181/jpeg-9/jchuff.c:1029-1063 | the restart intervals of a scan are its MCUs in order, cut after every interval of them |
| `ScanLength.BitsCounted` | mjpg-streamer-code-181/jpeg-9/jchuff.c:1121-1225 | the counts of the gathering pass tell the length of the output: without padding it is the sum over all tables of counts times code sizes, and the bits of the values, whatever codes are used |
| `CodeReading.SymbolBack` | luvcview_port/utils.c:650-702 | the code of a symbol and the bits of its value, read bit by bit with any table that has the same codes, are that run and value and end where they end |
| `LookupTable.DecHuff.MakeHuff` | luvcview_port/utils.c:740-787 | for every legal list of lengths, each of the 1024 entries tells run, value and bits left over, or run and size, or nothing, as its ten bits say, and the limits and places of all sizes are right |
| `FastDecoder.CodeLonger` | luvcview_port/utils.c:663-666 | a code beyond the limit of its size is longer, and at seventeen bits the search has ended |
| `FastDecoder.DecRec` | luvcview_port/utils.c:650-702 | for every legal table and every bit string, run, value and bits consumed are those of reading bit by bit; a code that is none is marked as bad |
| `BitReader.Reader.FillBits` | luvcview_port/utils.c:591-620 | the buffer holds a window of the unstuffed bits of the segment, with zeros behind its marker |
| `BitReader.Reader.GetBits` | luvcview_port/utils.c:639-643 | returns the next bits of the segment |
| `BitReader.Reader.ReadMarker` | luvcview_port/utils.c:622-634 | once fewer than eight bits are left, the marker found is the one that ends the segment, and reading goes on behind it |
| `BlockReading.AcBack` | luvcview_port/utils.c:718-730 | the symbols of AC coefficients, with long runs and end of block, are read back as the coefficients and nothing more |
| `BlockReading.BlockBack` | luvcview_port/utils.c:713-730 | so is a whole block |
| `McuDecoder.Decoder.DecodeMcus` | luvcview_port/utils.c:704-738 | blocks are put into their places, predictions pass from component to component as `next` says, and for every block 1 <= max <= 64, the coefficients from max on are zero, and the one before it is not, unless max is 1 |
| `HuffmanDecoder.CheckMarker` | luvcview_port/utils.c:264-276 | when a restart is due, succeeds if and only if the marker there is the expected one; then predictions and counters start over and the next segment is read |
| `HuffmanDecoder.DecodeScan` | luvcview_port/utils.c:464-535 | over the segments of an encoder with any markers behind them: succeeds if and only if every marker is the expected restart marker, and the last one EOI; then all MCUs come out |
| `ScanMeaning.MarkersInTurn` | luvcview_port/utils.c:264-276 | these markers are 0xD0 to 0xD7 over and over, and 0xD9 |
| `HuffmanEncoder.Encoder.EncodeMcuHuff` | mjpg-streamer-code-181/jpeg-9/jchuff.c:1015-1065 | fails if and only if the MCU cannot be coded; otherwise output and predictions are those of the scan so far, cut at restarts, with the MCU added |
| `HuffmanGather.Gatherer.EncodeMcuGather` | mjpg-streamer-code-181/jpeg-9/jchuff.c:1196-1230 | fails if and only if a value is out of range; otherwise the counts are those of all blocks so far, with predictions restarting where the output pass restarts |
| `HuffmanTables.MakeCodes` | mjpg-streamer-code-181/jpeg-9/jchuff.c:1256-1387 | generating a table for counts and deriving it gives a code to every counted symbol, if and only if no size exceeds 32 |
| `HuffmanTables.FinishPassGather` | mjpg-streamer-code-181/jpeg-9/jchuff.c:1396-1443 | every table of the scan is built once and covers the counts of all its components, if and only if no size for any of these counts exceeds 32 |
| `HuffmanRoundTrip.StartPassHuff` | mjpg-streamer-code-181/jpeg-9/jchuff.c:1450-1541 | deriving all tables of a scan succeeds if and only if each is acceptable, and gives codes that the decoder's tables decode |
| `HuffmanRoundTrip.ProgressCovered` | mjpg-streamer-code-181/jpeg-9/jchuff.c:1121-1225 | with tables made for the counts of a scan every MCU of it can be coded |
| `HuffmanRoundTrip.EncodeScan` | mjpg-streamer-code-181/jpeg-9/jchuff.c:1015-1085 | fails if and only if a value is out of range or a symbol has no code; otherwise the bytes are one padded and stuffed segment for each restart interval, with the markers between |
| `HuffmanRoundTrip.DecodeImage` | luvcview_port/utils.c:464-535 | the segments of an encoder with any markers behind them, whatever follows, decode to all MCUs if and only if the markers are the encoder's |
| `HuffmanRoundTrip.EncodeAndDecode` | mjpg-streamer-code-181/jpeg-9/jchuff.c:1015-1085 | every sequence of MCUs comes back, for any tables in common, any restart interval and any bytes behind; failure if and only if some MCU cannot be coded |
| `HuffmanRoundTrip.TwoPass` | mjpg-streamer-code-181/jpeg-9/jchuff.c:1196-1443 | gathering, generating, deriving, encoding and decoding give the image back; gathering fails if and only if a coefficient is out of range, and generating if and only if none is and the counts of some table lead to a size above 32; no symbol is ever without a code |
| `HuffmanCutoff.SmallImage` | mjpg-streamer-code-181/jpeg-9/jchuff.c:1281-1303 | the counts of fifteen million blocks stay below the cutoff of 10^9, and those of 146000 blocks never lead to a size above 32 |
| `HuffmanRoundTrip.TwoPassModerate` | mjpg-streamer-code-181/jpeg-9/jchuff.c:1196-1443 | so up to 146000 blocks an image comes back if and only if its coefficients are in range |

## Left out

Parts of the repository:

- Context-row buffers (`jdmainct.c`, `jcprepct.c`), the block feeders and their suspension (`jccoefct.c`, `jdcoefct.c`, `jctrans.c`, `jcmainct.c`) and the pass sequencer: none of them looks at coded data, and layouts of blocks into MCUs are parameters here.
- Block geometry (`jcmaster.c:571-645`): which blocks an MCU holds is a parameter; the facts used are that a layout has no block twice and that a scan of AC coefficients holds only blocks that all earlier scans of their component hold.
- The header writer and parser (`jcmarker.c`, `readtables` in `luvcview_port/utils.c`): both sides get the tables and parameters directly.
- The routines for progressive Huffman scans (`emit_eobrun`, `encode_mcu_DC_first` to `encode_mcu_AC_refine` in `jchuff.c`) and jpeg-9's own Huffman decoder `jdhuff.c`: the baseline encoder is paired with luvcview's decoder.
- DCT, quantization, colour conversion, sampling, smoothing, command-line tools, camera input and the web server.

Abstractions:

- Destinations accept every byte and sources have every byte, so no routine suspends; the working copy of the Huffman state and its permanent copy are one.
- Behind the end of its input the arithmetic decoder gets EOI markers in pairs of bytes, as the data source manager supplies them.
- Of the data source managers' ways to resynchronize the default one is modelled (`jpeg_resync_to_restart`); its warnings are not.
- A statistics byte is the pair of its top bit and its table index; areas are maps from bins, in which a cleared bin is absent. The probability table is a parameter of the coders, with `JpegAritab` as the source's.
- The coders' fields are split from the scan classes that hold predictions and restart counters; the routine for an MCU is chosen by the scan's parameters at each call.
- ERREXIT and WARNMS are results; coefficients are numbers with the source's 16-bit stores written out, other ints are unbounded where `RegisterBound` and its like show that they fit.
- `natural_order` is any permutation that fixes 0, on as many entries as the block size needs.
- In a sequential scan `se` stands for `lim_Se`: the source's Se is block_size^2 - 1 there and is only compared with 0.
- Lookup entries of luvcview's decoder are sums of the disjoint fields that the source ORs together; its structs of arrays are sequences.
- Tables for the gathering pass have 1 to 254 symbols and a total count up to 10^9; beyond that `bits[]` wraps and nodes are skipped in the source. UINT8 counters are modelled modulo 256.
- luvcview's decoder on data that no encoder wrote is modelled up to the symbol and value read; a run that leaves its block is not.
- luvcview's refill callback is taken to be null, and an MCU has one block or at least three, as its scan setup supports.

Weaker than the source might promise:

- ScanRoundTrip.EncodeAndDecode: says nothing about the decoder's blocks after a DC difference that cannot be read, beyond that the failure is found.
- HuffmanDecoder.DecodeScan: is about segments of an encoder with any markers behind them; segments that end early or late are covered only as far as `FastDecoder.DecRec` and `BitReader.Reader.ReadMarker` read them.
