# Verified models of the i.MX unit tests

This project models the self-contained algorithms inside the i.MX test programs and proves what they are
for. Everything is checked by `dafny verify dfyconfig.toml`; nothing here runs the programs themselves.

- **PDM decimator** (`CicMath`, `CicFilter`): a four-stage integrator-comb filter whose 32-bit integrators
  overflow freely. Every output is nevertheless the exact 253-tap FIR of the bit stream, over the integers,
  and never exceeds 2^24; any starting contents are forgotten after exactly four calls.
- **Display CRC** (`BitWords`, `Lfsr`, `CrcNetwork`, `CrcRefinement`, `CrcPolynomial`, `PixelFormats`,
  `DcicSignature`, `DcicRoi`): an unrolled 24-bits-a-step XOR network is shown to be the bit-serial CRC-32
  register of section 3.2.9 of IEEE 802.3, whose contents are the unique remainder of polynomial division.
  The four drivers, the signatures' error detection, and the painting of regions into a strided framebuffer
  build on that.
- **Trace decoder** (`EtmFormatter`, `EtmPort`, `EtmModel`, `EtmPackets`, `EtmTables`, `EtmSound`, `EtmRuns`,
  `EtmCounts`, `EtmSync`, `EtmHeaders`, `EtmBranch`, `EtmTimestamp`, `EtmTrace`, `EtmReport`, `EtmDecoder`): the formatter of
  chapter D4 of ARM IHI 0029 and the packets of chapter 7 of ARM IHI 0014. `EtmModel` and `EtmPackets` give the decoder as a
  state machine with a log of what it prints; `EtmPort.Port` and `EtmDecoder.Decoder` are the program's own form, updating
  its state in place, and are proved to follow the state machine. Its counters and addresses are right in every run on any
  input (`EtmRuns`). An encoder for lists of packets of mixed kinds, with delta-compressed addresses, timestamps and counts,
  is undone by the decoder (`EtmTrace`, `EtmReport`).
- **Sample-rate converter test** (`NatArithmetic`, `AsrcSizing`, `AsrcPlay`): sizing by binary long division,
  and a conversion loop that accounts for every byte whatever the device answers.
- **DSD player** (`Sequences`, `DsdBits`, `DsdInterleave`, `DsdLayouts`, `DsdPlayer`): bit reversal by table, two block
  layouts that become one, and delivery exactly once through a sink that accepts what it likes.
- **memalloc driver** (`Memalloc`): the allocation list against the history of DMA calls, in every run.
- **memtool fields** (`Memtool`): masked read-modify-write as independent variables.

Machine words are bit strings, least significant bit first, where the program works on bits
(`BitWords.Word`), and integers with explicit wrap-around where it counts (`MachineInts`). A device, a sink or
an allocator is an arbitrary script of answers, so a statement about one run of a method is a statement about
every behaviour of the device. `exit` and a fatal return are fields or results.

Where the code and its surroundings disagree, the code is followed:

- `mxc_pdm_cic` relies on wrapping signed addition, which C leaves undefined; it is modelled as two's
  complement wrap-around.
- PAGE_ALIGN wraps to zero for sizes near 2^32, so a buffer can be smaller than asked for
  (`Memalloc.BufferCoversRequest` says exactly when it is not).
- `AllocMemory` drops its list entry without freeing it when the DMA allocation fails, so `Memalloc.AllEntriesFreed`
  holds exactly for runs without such a failure.
- The three regions of the display test may overlap; the recorded signatures stay right because all of them
  are filled with the same byte, which is how `DcicRoi.RoiConfig` states it.

## Model

| member | source | states |
|---|---|---|
| CicFilter.MxcPdmCic | test/mxc_pdm_test/mxc_pdm_cic.c:36-65 | the two register arrays after a call, and its result, are those of 64 wrapping integrator steps and four combs |
| CicFilter.RunCombs | test/mxc_pdm_test/mxc_pdm_cic.c:48-64 | the combs store their inputs and pass on the difference from what they held |
| CicFilter.OutputIsFir | test/mxc_pdm_test/mxc_pdm_cic.c:36-65 | from zeros, or from the fifth call on whatever the registers held: every output is exactly, over the integers, the 4-fold boxcar FIR of the bit stream, and at most 2^24 in magnitude |
| CicFilter.Synchronises | test/mxc_pdm_test/mxc_pdm_cic.c:36-65 | two filters with any starting contents agree from the fifth call on |
| CicFilter.FourthOutputRemembers | test/mxc_pdm_test/mxc_pdm_cic.c:48-64 | four calls are not enough: on every input the fourth output differs by one when the first comb register does |
| CicFilter.FullScale | test/mxc_pdm_test/mxc_pdm_cic.c:40-64 | the bound 2^24 is attained by four words of ones |
| CicFilter.TracksAfter | test/mxc_pdm_test/mxc_pdm_cic.c:40-62 | the invariant of every run: each register is an exact sum or difference, wrapped |
| CicMath.DiffIsFold | test/mxc_pdm_test/mxc_pdm_cic.c:40-62 | j stride-64 differences of the j-th running sum are a j-fold moving sum, with no trace of the initial contents |
| CicMath.FoldIsConvolution | test/mxc_pdm_test/mxc_pdm_cic.c:40-62 | the j-fold moving sum is convolution with the j-fold self-convolved boxcar |
| CicMath.FoldBound | test/mxc_pdm_test/mxc_pdm_cic.c:40-62 | a j-fold moving sum of unit samples is within 64^j |
| CrcRefinement.NetworkIsLfsr | test/mxc_dcic_test/mxc_dcic_test.c:63-164 | the unrolled network is 24 steps of the bit-serial register, for every register and data word |
| CrcRefinement.RowsRecur | test/mxc_dcic_test/mxc_dcic_test.c:69-161 | each row of the network, stepped back, is the row below plus the fed-back top row |
| CrcRefinement.DataTapsAligned | test/mxc_dcic_test/mxc_dcic_test.c:69-161 | the data taps of a row are its register taps on the upper 24 bits, and no tap is above bit 23 |
| CrcRefinement.HalfIsZeros | test/mxc_dcic_test/mxc_dcic_test.c:69-161 | the register half of the network is 24 steps with zero data |
| CrcPolynomial.RunIsRemainder | test/mxc_dcic_test/mxc_dcic_test.c:63-164 | the register after a run is the one and only remainder of init * x^k + M * x^32 by the generator |
| CrcPolynomial.RemainderUnique | test/mxc_dcic_test/mxc_dcic_test.c:63-164 | division by the generator has only one remainder |
| Lfsr.BurstDetected | test/mxc_dcic_test/mxc_dcic_test.c:63-164 | messages that differ only within a window of up to 32 bits leave different registers |
| Lfsr.RunInjective | test/mxc_dcic_test/mxc_dcic_test.c:63-164 | for fixed data the register is an injective function of the starting register |
| Lfsr.RunLinear | test/mxc_dcic_test/mxc_dcic_test.c:63-164 | the register is linear over exclusive-or in start and data together |
| Lfsr.RunConcat | test/mxc_dcic_test/mxc_dcic_test.c:63-164 | a run over a concatenation is one run continued by the other |
| DcicSignature.Crc32Calc24bit | test/mxc_dcic_test/mxc_dcic_test.c:167-178 | the driver returns the bit-serial register after the low 24 bits of every word, reading the first word even for count 0 |
| DcicSignature.Crc32Calc18Of24bit | test/mxc_dcic_test/mxc_dcic_test.c:181-200 | the same over each pixel truncated to six bits a colour |
| DcicSignature.Crc32Calc24Of16bit | test/mxc_dcic_test/mxc_dcic_test.c:203-226 | the same over each RGB565 pixel widened to 24 bits |
| DcicSignature.Crc32Calc18Of16bit | test/mxc_dcic_test/mxc_dcic_test.c:229-252 | the same over each RGB565 pixel packed to 18 bits |
| DcicSignature.SignatureIsRemainder | test/mxc_dcic_test/mxc_dcic_test.c:167-178 | the signature is the unique remainder of init * x^24n + M * x^32 |
| DcicSignature.SinglePixelDetected | test/mxc_dcic_test/mxc_dcic_test.c:167-178 | buffers that differ in the low 24 bits of exactly one word have different signatures |
| DcicSignature.SignatureBijective | test/mxc_dcic_test/mxc_dcic_test.c:167-178 | for a fixed buffer the signature is a bijection of the initial register |
| DcicSignature.SignatureLinear | test/mxc_dcic_test/mxc_dcic_test.c:167-178 | the signature is linear over exclusive-or in the initial register and the pixels |
| DcicSignature.SignatureConcat | test/mxc_dcic_test/mxc_dcic_test.c:167-178 | the signature of a concatenation continues from the signature of its first part |
| DcicSignature.PixelPathsCommute | test/mxc_dcic_test/mxc_dcic_test.c:181-252 | the 16-to-18-bit signature is the 24-to-18-bit signature of the widened buffer |
| PixelFormats.PacksCommute | test/mxc_dcic_test/mxc_dcic_test.c:188-238 | packing RGB565 to 18 bits is widening to 24 bits and truncating, for every pixel |
| PixelFormats.Wide24At | test/mxc_dcic_test/mxc_dcic_test.c:210-212 | which pixel bit each of the 24 bus bits shows, with the high bits replicated |
| PixelFormats.Pack18At | test/mxc_dcic_test/mxc_dcic_test.c:188-188 | which pixel bit each of the 18 bus bits shows |
| PixelFormats.Narrow18At | test/mxc_dcic_test/mxc_dcic_test.c:236-238 | which RGB565 bit each of the 18 bus bits shows |
| DcicRoi.RecordSignature | test/mxc_dcic_test/mxc_dcic_test.c:288-305 | the recorded signature is that of the test buffer, and nothing is recorded for other bus widths |
| DcicRoi.CopyLines | test/mxc_dcic_test/mxc_dcic_test.c:309-313 | for any buffer of the right size: read back in raster order the rectangle is that buffer, and no other byte of the framebuffer has changed |
| DcicRoi.RoiFbInit | test/mxc_dcic_test/mxc_dcic_test.c:266-316 | after the fill, reading the region back in raster order gives the recorded signature, and nothing outside changed |
| DcicRoi.RasterShows | test/mxc_dcic_test/mxc_dcic_test.c:309-313 | a rectangle shows one value everywhere if and only if it reads as a buffer filled with it |
| DcicRoi.RasterAt | test/mxc_dcic_test/mxc_dcic_test.c:309-313 | which byte of the strided framebuffer each byte of raster order is |
| DcicRoi.RasterKept | test/mxc_dcic_test/mxc_dcic_test.c:309-313 | lines do not overlap: writing one leaves what the lines before it show |
| DcicRoi.RoiKept | test/mxc_dcic_test/mxc_dcic_test.c:335-357 | a later fill with the same value leaves an earlier region's contents as they were, even where it overlaps |
| DcicRoi.RoiConfig | test/mxc_dcic_test/mxc_dcic_test.c:318-358 | after all three fills each recorded signature still matches what its region shows, and no byte outside them changed |
| EtmFormatter.FormatterRoundTrip | test/etm/etm.c:60-105 | for any well-formed frames the unpacker delivers exactly the wanted sources' bytes, in order, across frames and delayed source changes |
| EtmFormatter.SlotsDecode | test/etm/etm.c:82-103 | the same from any slot of a frame on |
| EtmPort.Port.GetByteFromFormatter | test/etm/etm.c:60-105 | each call returns the first of the bytes still to be delivered and leaves the others; fails exactly when there are none |
| EtmPort.Port.ReadFrame | test/etm/etm.c:68-81 | sixteen bytes, or the end of the input |
| EtmPort.Port.GetByte | test/etm/etm.c:112-115 | a byte from the formatter or directly from the input |
| EtmSound.GetByteSound | test/etm/etm.c:107-135 | keeps counters and log in agreement; at the end reports the pending wait cycles |
| EtmSound.PrintAgrees | test/etm/etm.c:142-170 | an instruction line reports all waits counted, leaves only those still owed, and has the address that the log calls for |
| EtmSound.SetAddrAgrees | test/etm/etm.c:208-214 | keeps counters and log in agreement across a new address |
| EtmSound.GetBranchAddrSound | test/etm/etm.c:172-216 | keeps counters and log in agreement for any bytes whatever |
| EtmSound.RunCyclesAgrees | test/etm/etm.c:397-469 | the waits and instructions of a header leave counters and log in agreement once all its waits are counted |
| EtmSound.PHeaderSound | test/etm/etm.c:397-477 | keeps the wait balance over every header format, known or not |
| EtmSound.AtomPacketSound | test/etm/etm.c:563-591 | keeps counters and log in agreement over atom packets |
| EtmPackets.DecodeOne | test/etm/etm.c:826-839 | one packet consumes input or ends the run |
| EtmSound.DecodeOneSound | test/etm/etm.c:826-839 | every packet, whatever its bytes, keeps counters and log in agreement |
| EtmSound.DecodeAllSound | test/etm/etm.c:826-839 | so does the whole run, to the end of the input |
| EtmRuns.WaitsConserved | test/etm/etm.c:116-119 | in every run, waits printed plus waits pending are the waits received in P-headers |
| EtmRuns.AllWaitsReported | test/etm/etm.c:116-119 | by the end of the input all waits received have been printed |
| EtmRuns.PcTracksAddress | test/etm/etm.c:142-150 | in every reachable state pc is the last address plus the instructions since, mod 2^32, or in program-flow mode the address with the instructions counted |
| EtmRuns.EveryLineAddressed | test/etm/etm.c:152-170 | every instruction line of every run carries the address and branch count that the lines before it imply |
| EtmRuns.EveryStateSound | test/etm/etm.c:826-839 | the invariant behind these, in every reachable state |
| EtmBranch.Length | test/etm/etm.c:183-194 | the encoder picks the shortest packet that suffices |
| EtmBranch.GroupsDecode | test/etm/etm.c:183-194 | the group loop over the packet's bytes rebuilds the address and stops after the last of them |
| EtmBranch.BranchAddrRoundTrip | test/etm/etm.c:172-216 | decoding a packet recovers target, mode and exception bit, in both encodings and from any state, and consumes exactly its bytes |
| EtmBranch.BranchRoundTrip | test/etm/etm.c:218-238 | one branch with its exception bytes: the decoder comes to exactly the state that the target and the bytes mean |
| EtmBranch.WaypointRoundTrip | test/etm/etm.c:520-539 | the same for a waypoint with its information byte |
| EtmTrace.PacketRoundTrip | test/etm/etm.c:826-839 | a packet of any kind, in either protocol and wherever in a trace it comes, takes the decoder to the state it means, log included, and exactly its bytes are consumed |
| EtmTrace.TraceRoundTrip | test/etm/etm.c:826-839 | any list of packets of mixed kinds, each delta-compressed against the ones before, takes the decoder to the state the list means, log included, and exactly its bytes are consumed |
| EtmTrace.ProgramRoundTrip | test/etm/etm.c:107-135 | the whole program on a whole trace ends with that log and a line for the waits still pending |
| EtmReport.FactsRecovered | test/etm/etm.c:826-839 | decoding undoes encoding: branch targets with their modes and exceptions, instructions, timestamps, cycle counts, contexts and data are reported exactly as they were sent, in order |
| EtmReport.ProgramReports | test/etm/etm.c:826-839 | the same for the whole program on a whole trace |
| EtmReport.EncodingInjective | test/etm/etm.c:826-839 | traces of the same bytes say the same, however they are cut into packets |
| EtmTimestamp.Length | test/etm/etm.c:247-254 | the encoder picks the shortest prefix of groups that changes |
| EtmTimestamp.GroupsDecode | test/etm/etm.c:247-254 | the loop rebuilds the value from any number of groups, including the nine-byte form with its eight-bit last group |
| EtmTimestamp.TimestampRoundTrip | test/etm/etm.c:240-260 | a timestamp sent as any prefix of groups that suffices becomes the current one and is printed with its rate flag |
| EtmTables.ExactlyOneRow | test/etm/etm.c:808-825 | in both packet tables every byte is matched by exactly one row before the last, which is what the program checks when it starts |
| EtmTables.AnyMatchIsFirst | test/etm/etm.c:826-829 | so the row that a byte matches is the one the search finds, wherever in the table it stands |
| EtmCounts.CountConsumed | test/etm/etm.c:479-498 | whatever its groups carry, a cycle count after a branch or timestamp takes exactly its own bytes and prints one line |
| EtmCounts.GroupsNeeded | test/etm/etm.c:272-286 | the encoder sends the fewest groups that turn the old word into the new one |
| EtmCounts.FollowingCountRoundTrip | test/etm/etm.c:541-561 | the count that follows a branch or a timestamp is printed as it was sent |
| EtmHeaders.CycleHeaderRoundTrip | test/etm/etm.c:397-443 | every P-header of a cycle-accurate trace, of any of the five formats, is read as the cycles it was composed from |
| EtmHeaders.CycleHeadersComplete | test/etm/etm.c:401-440 | every byte the decoder knows as such a header has been composed that way |
| EtmHeaders.PlainHeaderRoundTrip | test/etm/etm.c:445-469 | every P-header of a plain trace is read as the instructions it was composed from |
| EtmHeaders.PlainHeadersComplete | test/etm/etm.c:448-467 | every byte the decoder knows as such a header has been composed that way |
| EtmHeaders.AtomHeaderRoundTrip | test/etm/etm.c:571-583 | any one to five atoms of a program-flow packet are read back in order |
| EtmSync.ReadWordRoundTrip | test/etm/etm.c:288-308 | a word sent least significant byte first is read back, cut to the bytes sent |
| EtmSync.IsyncRoundTrip | test/etm/etm.c:326-338 | after a synchronisation packet address, mode and pc are the packet's, its context is printed, and exactly its bytes are gone |
| EtmSync.IsyncPftRoundTrip | test/etm/etm.c:500-518 | the same in the program-flow protocol's order, with the cycle count it may announce |
| EtmSync.DataRoundTrip | test/etm/etm.c:364-395 | value and delta-compressed address of a data packet are printed as they were sent, and the address is remembered |
| EtmCounts.CCountRoundTrip | test/etm/etm.c:272-286 | a cycle count of up to five groups is printed as it is |
| EtmCounts.CycleCountPftRoundTrip | test/etm/etm.c:479-498 | a cycle count of four bits and up to four groups is printed as it is |
| EtmDecoder.Decoder.GetByte | test/etm/etm.c:107-135 | the in-place step follows the state machine |
| EtmDecoder.Decoder.PrintInstruction | test/etm/etm.c:152-170 | the in-place step follows the state machine |
| EtmDecoder.Decoder.GetBranchAddr | test/etm/etm.c:172-216 | the loop over address bytes, in place, follows the state machine |
| EtmDecoder.Decoder.Branch | test/etm/etm.c:218-238 | a branch with up to two exception bytes follows the state machine |
| EtmDecoder.Decoder.Timestamp | test/etm/etm.c:240-260 | the loop over timestamp bytes, in place, follows the state machine |
| EtmDecoder.Decoder.CountGroups | test/etm/etm.c:272-286 | the loop over seven-bit groups, in place, follows the state machine |
| EtmDecoder.Decoder.ReadWord | test/etm/etm.c:288-308 | n bytes, least significant first |
| EtmDecoder.Decoder.Isync | test/etm/etm.c:326-338 | context, information byte and address in this order |
| EtmDecoder.Decoder.IsyncPft | test/etm/etm.c:500-518 | address, information byte, cycle count if announced, context |
| EtmDecoder.Decoder.NData | test/etm/etm.c:364-395 | the address groups update the data address in place, and value and address are printed |
| EtmDecoder.Decoder.KnownHeaderCycleAccurate | test/etm/etm.c:397-443 | the loops over waits and instructions print what the header's cycles say |
| EtmDecoder.Decoder.KnownHeaderPlain | test/etm/etm.c:445-469 | the loops over instructions print what the header's cycles say |
| EtmDecoder.Decoder.CycleCountPft | test/etm/etm.c:479-498 | four bits and up to four seven-bit groups |
| EtmDecoder.Decoder.Waypoint | test/etm/etm.c:520-539 | a waypoint follows the state machine |
| EtmDecoder.Decoder.AtomsPlain | test/etm/etm.c:571-583 | finds the marker bit and prints the atoms below it |
| EtmDecoder.Decoder.Lookup | test/etm/etm.c:828-829 | the first row of the packet table that matches |
| EtmDecoder.Decoder.Run | test/etm/etm.c:826-839 | the whole in-place run ends in the state machine's final state |
| EtmDecoder.DecodeTrace | test/etm/etm.c:826-839 | on any input all waits received are reported and every line is correctly addressed |
| EtmDecoder.DecodeFrames | test/etm/etm.c:60-105 | on any well-formed formatter stream the program decodes exactly the wanted sources' bytes, with the same two guarantees |
| AsrcSizing.GetOutputBufferSize | test/mxc_asrc_test/mxc_asrc_test.c:314-346 | the size is the long division's, scaled to output words, and no intermediate leaves int32 |
| AsrcSizing.WholePart | test/mxc_asrc_test/mxc_asrc_test.c:323-327 | repeated subtraction gives quotient and remainder of the rates |
| AsrcSizing.SizeWithinBounds | test/mxc_asrc_test/mxc_asrc_test.c:323-338 | before scaling the size is a multiple of 8, at most size * out / in, and short of it by less than floor(log2 size) + 12 |
| AsrcSizing.NextDigit | test/mxc_asrc_test/mxc_asrc_test.c:329-337 | doubling the remainder and subtracting if it fits yields the next binary digit of the ratio |
| AsrcSizing.Balance | test/mxc_asrc_test/mxc_asrc_test.c:329-337 | the exact account of every partial sum: what is summed, lost to rounding and left over |
| AsrcSizing.NothingLeft | test/mxc_asrc_test/mxc_asrc_test.c:329-329 | stopping early when nothing is left over loses nothing |
| AsrcSizing.WordsConvertExactly | test/mxc_asrc_test/mxc_asrc_test.c:340-343 | for input words of 1, 2 or 4 bytes the final division is exact |
| AsrcPlay.PlayFile | test/mxc_asrc_test/mxc_asrc_test.c:373-406 | whatever the device answers: used plus remaining is constant, the bytes written are the first ones produced, a normal end comes exactly when the predicted length is reached, and input is offered in consecutive blocks and then zeros |
| AsrcPlay.OffersInOrder | test/mxc_asrc_test/mxc_asrc_test.c:375-387 | chunks come first, at multiples of the buffer size, and stay inside the allocation |
| AsrcPlay.UpdateDatachunkLength | test/mxc_asrc_test/mxc_asrc_test.c:415-420 | patches the two length fields and nothing else |
| AsrcPlay.HeaderUpdate | test/mxc_asrc_test/mxc_asrc_test.c:768-785 | patches the two length fields in the header and in the file, and nothing else |
| AsrcPlay.UpdateFormat | test/mxc_asrc_test/mxc_asrc_test.c:422-436 | patches audio format, byte rate, block alignment and sample width, in place |
| AsrcPlay.CompletedMeans | test/mxc_asrc_test/mxc_asrc_test.c:415-436 | the final header holds the lengths whatever the size of its format chunk, and describes the output format if that chunk has its 16 bytes |
| AsrcPlay.ConvertFile | test/mxc_asrc_test/mxc_asrc_test.c:1027-1046 | a run that ends normally leaves the first converted bytes, as many as predicted: alone, or for signed linear formats behind a header whose length fields are those of the file and those predicted up front |
| DsdBits.TableReverses | test/mxc_alsa_dsd_player/bit_reverse.c:25-31 | the macro-built table exchanges bit i with bit 7 - i, for every byte |
| DsdBits.R8At | test/mxc_alsa_dsd_player/bit_reverse.c:27-30 | where the nested macros put each entry |
| DsdBits.Involution | test/mxc_alsa_dsd_player/bit_reverse.h:27-30 | reversing twice gives the byte back |
| DsdBits.BitReverseBuffer | test/mxc_alsa_dsd_player/bit_reverse.h:32-37 | every byte of the buffer is reversed, in place |
| DsdBits.ReversedTwice | test/mxc_alsa_dsd_player/bit_reverse.h:32-37 | reversing a buffer twice gives it back |
| DsdInterleave.InterleaveDsfBlock | test/mxc_alsa_dsd_player/dsf_utils.c:117-129 | the buffer is the frame layout of the planar block's streams |
| DsdLayouts.PlanarPermuted | test/mxc_alsa_dsd_player/dsf_utils.c:117-129 | the interleaver permutes its block |
| DsdInterleave.InterleavedAt | test/mxc_alsa_dsd_player/dsf_utils.c:117-129 | every channel keeps the order of its bytes |
| DsdInterleave.PlanarRoundTrip | test/mxc_alsa_dsd_player/dsf_utils.c:117-129 | streams written as a planar block are read back |
| DsdInterleave.InterleaveDffBlock | test/mxc_alsa_dsd_player/dff_utils.c:231-243 | the buffer is the frame layout of the byte-interleaved block's streams |
| DsdLayouts.BytesPermuted | test/mxc_alsa_dsd_player/dff_utils.c:231-243 | the interleaver permutes its block |
| DsdLayouts.ByteRoundTrip | test/mxc_alsa_dsd_player/dff_utils.c:231-243 | streams written as a byte-interleaved block are read back |
| DsdLayouts.LayoutsMeet | test/mxc_alsa_dsd_player/dff_utils.c:231-243 | DSF and DFF blocks with the same streams become the same buffer, for any channel count and sample width |
| DsdLayouts.ReversalCommutes | test/mxc_alsa_dsd_player/main.c:497-500 | reversing the bits before or after interleaving is the same, in both layouts |
| DsdPlayer.PcmWrite | test/mxc_alsa_dsd_player/main.c:247-271 | for any answers of the sink, what it has accepted is a prefix of the buffer, all of it when the write returns, and the write ends as the answers determine |
| DsdPlayer.ReadBlock | test/mxc_alsa_dsd_player/main.c:475-493 | the next bytes of the file, filled up with zeros |
| DsdPlayer.RenderBlock | test/mxc_alsa_dsd_player/main.c:497-500 | bit reversal if called for, then the layout's interleaver |
| DsdPlayer.PlayBlocks | test/mxc_alsa_dsd_player/main.c:470-506 | blocks are delivered once each and in order, and counted in frames |
| DsdPlayer.PlayPadding | test/mxc_alsa_dsd_player/main.c:508-516 | silence up to the next whole period |
| DsdPlayer.Play | test/mxc_alsa_dsd_player/main.c:468-516 | whatever the sink does it has accepted a prefix of everything there is to send, and all of it if the run completes |
| DsdPlayer.WholePeriods | test/mxc_alsa_dsd_player/main.c:508-516 | a complete run sends a whole number of periods |
| Memalloc.EveryRunSafe | module_test/memalloc.c:62-277 | in every legal run the list is exactly what has been handed out and not returned, regions do not overlap, each is returned at most once and as it was handed out, and a closed device holds nothing |
| Memalloc.StepKeepsInv | module_test/memalloc.c:114-199 | every entry point keeps that invariant |
| Memalloc.RegionsConserved | module_test/memalloc.c:62-277 | what was handed out is what was returned plus what is outstanding |
| Memalloc.AllReturned | module_test/memalloc.c:190-199 | when the last user has closed the device every region has been returned |
| Memalloc.BusAddressUnique | module_test/memalloc.c:329-342 | a bus address on the list names one region, and the search finds it |
| Memalloc.FreeingAll | module_test/memalloc.c:62-81 | freeing the list front to back is a proper history and leaves nothing outstanding |
| Memalloc.EntriesConserved | module_test/memalloc.c:62-277 | in every legal run the list entries allocated are those freed, those on the list, and one for every failed DMA allocation |
| Memalloc.AllEntriesFreed | module_test/memalloc.c:62-277 | after the last close every list entry has been freed if and only if no DMA allocation failed; the entries still allocated are exactly those of the failures |
| Memalloc.BufferCoversRequest | module_test/memalloc.c:229-229 | rounding up to pages gives at least the size asked for if and only if it does not wrap |
| Memalloc.Driver.FreeBuffers | module_test/memalloc.c:62-81 | the loop frees every entry, front to back |
| Memalloc.Driver.FindEntryByBus | module_test/memalloc.c:329-342 | the first entry with the bus address, or none |
| Memalloc.Driver.AllocMemory | module_test/memalloc.c:218-249 | follows the state machine, with its three outcomes |
| Memalloc.Driver.FreeMemory | module_test/memalloc.c:258-277 | frees the entry with the bus address, or fails exactly if there is none |
| Memalloc.Driver.MapBuffer | module_test/memalloc.c:287-319 | gets past its checks exactly if the entry found has the offset and the size, and then reports what remapping did |
| Memalloc.AllocatedMeans | module_test/memalloc.c:295-305 | since regions lie apart, those checks pass exactly if some outstanding buffer has that address and size |
| Memalloc.Driver.ReleaseDevice | module_test/memalloc.c:190-199 | the last close frees everything |
| Memalloc.Driver.Perform | module_test/memalloc.c:114-199 | each entry point follows the state machine |
| Memalloc.Run | module_test/memalloc.c:114-199 | a driver put through any legal run is in the state machine's final state, with the invariant |
| Memtool.WriteRegMask | test/memtool/memtool.c:223-244 | the register's field is replaced and its other bits kept; unknown widths write nothing |
| Memtool.WriteM | test/memtool/memtool.c:116-143 | stores the width's bytes, least significant first, and no others |
| Memtool.ReadMAt | test/memtool/memtool.c:90-114 | each bit of the register, with zeros above its width |
| Memtool.GetValueAt | test/memtool/memtool.c:145-148 | the field's bits, without the sign bit that the shift brings in |
| Memtool.WrittenBit | test/memtool/memtool.c:223-244 | a field write changes the memory bits that the field covers, and no others |
| Memtool.LastWriteWins | test/memtool/memtool.c:145-244 | after any writes a field reads back the last value written to it, cut to its width, when later writes are to disjoint fields |
| Memtool.NeverWritten | test/memtool/memtool.c:145-244 | a field that no write overlaps keeps its value |

## Left out

- The other programs of the repository: device scripts, ioctl and ALSA/V4L2 plumbing, option parsing, file
  header parsers, floating point, and thin driver wrappers, where a model would only add easy members.
- mxc_alsa_pdm_convert and its reader and converter threads: there is no back-pressure between them.
- cec-funcs.h: many similar fixed-size field packers.
- Printing: the trace decoder's lines are kept as log events with their values; spacing, print_input, the sync
  mark, the "Long wait" lines and the names of packets are not modelled. Packets that only print share one
  plain event.
- The trace decoder's iaddr_valid mask and its sync counter, which affect nothing but printing.
- EtmFormatter.Wanted: takes source ids of 32 and above as unmatched; the C shift is undefined for them.
- EtmFormatter.FormatterRoundTrip: frames whose last byte is an identifier carry a zero auxiliary bit there, the
  only well-formed value.
- EtmSync.IsyncRoundTrip: context ids have at most four bytes, the most that the program's 32-bit shifts allow.
- EtmTrace.TraceRoundTrip: the encoder sends no P-header of an unknown format, and cycle counts in the fewest groups.
- EtmSound.PrintAgrees: the wait and branch counters are unbounded; the program's are 32-bit, so the guarantees about
  waits and branch points hold for runs of fewer than 2^31 of them between address packets.
- AsrcPlay.PlayFile: the predicted length is taken as given, and a device answer is a byte string; how much the
  device is told it may write is not modelled. The repacking of samples in bitshift is left out.
- AsrcSizing.GetOutputBufferSize: inputs that would overflow 32 bits, or a zero input rate (for which the loop
  does not end), are excluded, since nothing is promised for them.
- DsdPlayer.ReadBlock: as for DsdPlayer.Play, reads do not fail.
- DsdPlayer.Play: a read error, which the program's unsigned comparison cannot see, is not modelled; the file
  is the bytes that can be read. Draining and closing the stream are left out.
- DsdPlayer.PcmWrite: a sink never accepts more frames than it was offered, as its interface promises.
- DcicRoi.RoiFbInit: regions with the end before the start, or outside the framebuffer, are excluded.
- Memalloc.Driver.Perform: concurrency and the user-space copies are left out; each entry point is one step.
- Memtool.WriteRegMask: the page-window cache under the flat memory, and the lookup of module and register
  names, are left out; a field lies within its register.
