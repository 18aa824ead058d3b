# Speex: models of the signal path and its proofs

A Dafny model of the hard cores of the Speex codec in `Libraries/speex`, and proofs about it:

- **Mixed-radix FFT** (`Kiss*`, `Radix`, `Passes`, `Butterflies`, `Twiddles`, `FftSpec`, `RealDft`, `DftInverse`): the
  in-place butterflies over exact complex numbers, their specification the plain DFT sum.
- **Bit stream and lockstep** (`Bit*`, `Modes`, `Framing`, `Packets`, `Fixed`, `LspStages`, `QuantLsp`, `QuantLaws`, `Ltp`,
  `Innovation`, `Nb*`, `Lockstep`): the bit buffer, self-delimiting packets (section 3.3 of RFC 5574 pads them with the
  terminator), and the narrowband encoder and decoder of the fixed-point build with 16- and 32-bit wrap-around written
  out. The spectrum is searched as the code does; what the other searches of the encoder choose is arbitrary in range.
- **Codebook search** (`SmallestLists`, `BestLists`, `BeamSpec`, `VqNbest`, `BeamSearch`, `BeamPaths`, `BeamRun`,
  `BeamLaws`, `BeamGreedy`, `BeamChoice`, `BeamCodebook`): the search of the fixed codebook with several survivors.
- **Resampler** (`Resample*`): the streaming filter on a channel from any state on, the change of the filter length in
  the memory block of all channels, rate changes, and whole runs of all of them.
- **Jitter buffer** (`Jitter*`): timing statistics, and the buffer as a class over its slot and arrival arrays that
  implements a state machine over wrapping timestamps.
- **Filters and spectra** (`Filters`, `LspPolynomials`, `LspLpc`, `LspFixed`, `ChebPolyEva`): the transposed filters, and
  the two implementations each of the conversion from line spectral pairs and of Chebyshev evaluation.

Code that works in place is a method over arrays or a class here, proved against a specification function; the laws are
lemmas about the specification. `dafny verify dfyconfig.toml` checks the whole project.

## Findings

Where the code does not do what one might expect, the exact condition is proved.

- `speex_bits_insert_terminator` does not end when the last byte of a buffer that cannot grow has to be filled, for
  example with three bits packed into a one-byte buffer from `speex_bits_init_buffer`: `speex_bits_pack` refuses the bit
  and the loop goes on for ever (`Bits.SpeexBits.InsertTerminatorWithin`, `BitRuns.PadFullBuffer`).
- `speex_bits_write` leaves the terminator in the last byte, so that packing may go on after it only when nothing was
  added or just one zero bit (`Bits.SpeexBits.Write`).
- Quantised spectra of encoder and decoder differ when a residual does not fit the last stage (`LspStages.ThreeStages`,
  `LspStages.FarResidualDiffers`).
- The clamp on the adaptive part exists in the decoder only; a loud history makes the two sides differ
  (`Lockstep.ClampMatters`, `Lockstep.SampleAgrees`).
- The narrowband decoder takes a wideband layer of submode 0 for corruption, since its entry in the skip table is zero
  (`Framing.UnlistedLayerIsCorrupt`).
- `kiss_fft` fails for lengths with a divisor above 17 that has no factor up to 17, first for 19
  (`KissFftMain.KissFftStride`, `KissSmooth.NineteenIsRough`).
- In the jitter buffer a second adjustment before the next get forgets the interpolation of the first one, and time moves
  back (`JitterRun.UpdateProgress`, `JitterLosses.TwoTicksLose`). A reset does not clear a requested interpolation, which
  the first get after it then returns instead of the packet (`JitterLosses.ResetKeepsRequest`).
- Half way between two spectra, entries that are both 32767 wrap to -32768 (`NbSpec.LoudSpectrumWraps`).
- A packet that comes on time while the next call is due at timestamp zero is never timed (`JitterLaws.TimedOnce`), and an
  adjustment by the least 16-bit delay shifts the timings the wrong way (`JitterLaws.ShiftKeepsTime`).
- `speex_bits_read_whole_bytes` overwrites the bits behind the last whole byte (`Bits.SpeexBits.ReadWholeBytes`).
- A longer filter after a shorter one puts silence where samples were dropped; the order of what is left and the filter
  centre are kept (`ResampleMemory.Memory.ChangeLength`).

## Model

| member | source | states |
|---|---|---|
| KissFactor.KfFactor | Libraries/speex/kiss_fft.c:437-462 | the factor list multiplies up to the length stage by stage; every radix divides the length and is 4 or has no proper divisor from 2 to 32000, the largest trial; and there are at most log2 n of them, so that 32 entries are enough |
| KissSmooth.FitsIffSmooth | Libraries/speex/kiss_fft.c:288-294 | the factor list stays within the 17 scratch elements of the generic butterfly exactly when no divisor of the length is rough: free of factors up to 17 and greater than one |
| KissSmooth.RoughMultiples | Libraries/speex/kiss_fft.c:288-294 | no multiple of a rough number can be transformed |
| KissSmooth.NineteenIsRough | Libraries/speex/kiss_fft.c:288-294 | 19 is the least length that cannot be transformed |
| KissShuffle.KfShuffle | Libraries/speex/kiss_fft.c:321-353 | the recursive shuffle leaves every input sample at the place that the depth-first recursion reads it from, and touches nothing outside its block |
| KissFft.KfWork | Libraries/speex/kiss_fft.c:355-430 | the breadth-first stages over N blocks leave in every block what the depth-first recursion makes of it; failure exactly when some radix exceeds 17 |
| KissFft.KfWorkDepthFirst | Libraries/speex/kiss_fft.c:371-428 | the disabled recursion over each block computes the same function of the block |
| FftSpec.DepthFirstIsDft | Libraries/speex/kiss_fft.c:321-430 | for shuffled input, and twiddles that are the powers of a root of unity, the depth-first function is the plain DFT sum |
| Butterflies.BflyGeneric | Libraries/speex/kiss_fft.c:278-319 | the generic butterfly, whose running index needs one subtraction only, turns every column into its small DFT; it fails exactly when the radix exceeds 17 |
| Radix.QuadIsSmallDft | Libraries/speex/kiss_fft.c:86-166 | the sums and differences of the radix-4 butterfly are the four-point DFT, in either direction |
| Radix.QuintIsSmallDft | Libraries/speex/kiss_fft.c:214-276 | the ten real combinations of the radix-5 butterfly are the five-point DFT |
| KissFftMain.KissFftStride | Libraries/speex/kiss_fft.c:464-515 | for every length and stride the output is the DFT of the strided input, unless the call is in place or the length has a rough divisor, which is exactly when it fails |
| KissFftMain.Fft | Libraries/speex/kiss_fft.c:464-522 | allocation and transform for a whole signal give its DFT exactly when the length is smooth, and never for 19 samples |
| RealDft.PairedDft | Libraries/speex/kiss_fftr.c:173-200 | the DFT of 2n real samples from the DFT of n complex samples that hold them in pairs |
| KissFftr.Fftr2 | Libraries/speex/kiss_fftr.c:173-259 | the output is the packed half-complex DFT of the 2n real samples: first and last bin, then real and imaginary parts, the doubly written middle bin included |
| KissFftr.PackedEntries | Libraries/speex/kiss_fftr.c:173-259 | in the packed form the first entry is the plain sum of the samples, entries 2k-1 and 2k are real and imaginary part of bin k, and the last one is the real part of the middle bin |
| KissFftri.Fftri2 | Libraries/speex/kiss_fftr.c:261-297 | for input that is the packed spectrum of any real signal, the output is that signal times 2n |
| KissFftri.RoundTrip | Libraries/speex/kiss_fftr.c:173-297 | kiss_fftri2 after kiss_fftr2: the spectrum in between is packed as it should be, and the signal comes back times 2n |
| DftInverse.DftInverts | Libraries/speex/kiss_fft.c:464-500 | the table that is allocated for the inverse direction is the conjugate one, and the DFT sum with it takes the DFT of any signal back to n times the signal |
| Bits.SpeexBits.Pack | Libraries/speex/bits.c:230-271 | the contents grow by the number, most significant bit first, through any reallocation; without room nothing changes |
| Bits.SpeexBits.UnpackUnsigned | Libraries/speex/bits.c:284-304 | takes the next bits as a number and moves the cursor, or sets the overflow flag and gives zero |
| Bits.SpeexBits.UnpackSigned | Libraries/speex/bits.c:273-282 | the same for two's complement numbers |
| Bits.SpeexBits.PeekUnsigned | Libraries/speex/bits.c:306-333 | gives what the unpack function would, without moving |
| Bits.SpeexBits.Peek | Libraries/speex/bits.c:335-342 | gives the next bit without moving, or sets the overflow flag |
| Bits.SpeexBits.Advance | Libraries/speex/bits.c:344-352 | moves by any number of bits in either direction, or sets the overflow flag |
| BitReader.PeekThenAdvance | Libraries/speex/bits.c:306-352 | peek then advance equals unpack, for every state of the buffer |
| BitReader.OverflowIsSticky | Libraries/speex/bits.c:284-304 | after an overflow every later number is zero and the position stays |
| BitRuns.SignedRoundTrip | Libraries/speex/bits.c:230-282 | unpacking a signed number of n bits gives back every number that n bits can hold |
| BitRuns.Transfer | Libraries/speex/bits.c:189-304 | any fields packed, written with a terminator, read into another buffer and unpacked come back |
| BitRuns.StreamOut | Libraries/speex/bits.c:212-271 | packing interleaved with writing whole bytes puts out the same bits as packing everything first |
| Bits.SpeexBits.Write | Libraries/speex/bits.c:189-210 | the bytes written are the contents and the terminator; the buffer keeps its contents but for the terminator left in the last byte, after which packing may go on exactly when that byte was full or one bit short of it |
| Bits.SpeexBits.WriteWholeBytes | Libraries/speex/bits.c:212-228 | puts out the whole bytes and keeps the bits after them |
| Bits.SpeexBits.ReadWholeBytes | Libraries/speex/bits.c:148-187 | what the whole bytes hold unread stays and the new bytes follow it, through flushing and reallocation; with whole bytes only, nothing that was unread is lost |
| Bits.SpeexBits.InsertTerminatorWithin | Libraries/speex/bits.c:367-373 | the padding loop comes to its end, given enough passes, if and only if the byte behind the cursor is there, can be had, or is not needed |
| BitRuns.PadFullBuffer | Libraries/speex/bits.c:367-373 | with three bits in a one-byte buffer the padding loop is still at it after any number of passes |
| BitRuns.ReadTwice | Libraries/speex/bits.c:102-107 | after a rewind any fields are read again as they were, also when the first reading ran over the end |
| Modes.LayoutFillsFrame | Libraries/speex/modes.c:151-316 | for each of the nine submodes, the fields that the coder writes add up to the bits_per_frame of the table |
| Modes.WbLayoutFillsLayer | Libraries/speex/modes_wb.c:63-178 | for the four wideband submodes, the spectrum, the gains and the signed codebook indices that sb_encode packs add up to the size of the layer in the table |
| Framing.PassAdvances | Libraries/speex/nb_celp.c:1126-1192 | every pass of the header loop that does not return moves the cursor forward by at least five bits |
| Framing.LayerSkipped | Libraries/speex/nb_celp.c:1131-1160 | a wideband layer of submode 1 to 4, as long as its encoder packs it, is skipped exactly |
| Framing.SkipTable | Libraries/speex/nb_celp.c:1081-1081 | the entries 1 to 4 of the skip table are the lengths of the wideband layers, computed from their fields |
| Framing.RequestsAreListed | Libraries/speex/speex_callbacks.c:43-73 | the payload of every in-band request that is skipped has the size that the header lists for it |
| Framing.UnlistedLayerIsCorrupt | Libraries/speex/nb_celp.c:1131-1143 | a wideband layer of submode 0 or of an undefined one is taken for a corrupted stream |
| Framing.ItemPass | Libraries/speex/nb_celp.c:1126-1192 | one pass over a frame, an in-band message or a user message with up to two wideband layers before it finds just that and stops behind it |
| Framing.EndPass | Libraries/speex/bits.c:367-373 | at the terminator, with wideband layers before it or not, the loop reports the end of the stream |
| Framing.PacketParsed | Libraries/speex/nb_celp.c:1126-1192 | any list of frames and messages that is closed by a terminator is parsed into exactly its frames and then the end |
| Framing.FindFrame | Libraries/speex/nb_celp.c:1126-1192 | the loop over the bit buffer is the loop over the bit string |
| Packets.DecodePacket | Libraries/speex/nb_celp.c:1126-1192 | repeated header loops over the bit buffer are the parser of the bit string |
| Packets.Deliver | Libraries/speex/nb_celp.c:537-548 | any list of items packed, written by speex_bits_write, read from and parsed back gives its frames and then the end |
| QuantLsp.Search | Libraries/speex/quant_lsp.c:98-156 | the codebook searches, plain and weighted, return the first of the nearest codewords |
| QuantLsp.ComputeQuantWeights | Libraries/speex/quant_lsp.c:71-93 | every weight is that of the distance to the nearer neighbour, the ends of the range included |
| QuantLsp.LspQuantNb | Libraries/speex/quant_lsp.c:159-211 | every index sent is the first of the codewords nearest to what the stage before it has left, the later stages with the weights of their half of the spectrum; the quantised spectrum is that of these codewords |
| QuantLsp.LspQuantLbr | Libraries/speex/quant_lsp.c:242-281 | the same for the three stages of the low-bit-rate quantiser |
| QuantLsp.LspQuantHigh | Libraries/speex/quant_lsp.c:319-358 | the same for the two stages of the high band |
| QuantLaws.DistanceIsSquares | Libraries/speex/quant_lsp.c:98-156 | as long as nothing overflows, a distance is the sum of the squared gaps, each weighted over 2^15 and rounded down |
| QuantLaws.NearerIsLeast | Libraries/speex/quant_lsp.c:71-93 | for frequencies in order, a weight is set by the least distance from all other frequencies and the ends of the range |
| QuantLaws.CloserIsHeavier | Libraries/speex/quant_lsp.c:71-93 | the smaller that distance, the larger the weight, which is positive and at most 273 |
| LspStages.LinearInRadians | Libraries/speex/quant_lsp.c:50-63 | the starting points of the fixed-point build are those of the floating-point one in units of 2^-13 |
| QuantLsp.LspUnquantNb | Libraries/speex/quant_lsp.c:213-239 | the decoder takes five indices and adds up the linear start and the scaled codewords |
| QuantLsp.NbExact | Libraries/speex/quant_lsp.c:159-239 | the spectrum that the narrowband quantiser keeps is the one the decoder rebuilds if and only if the residual of every coefficient is within 13 bits and sign |
| QuantLsp.LbrExact | Libraries/speex/quant_lsp.c:242-302 | the same for the low-bit-rate quantiser |
| QuantLsp.HighExact | Libraries/speex/quant_lsp.c:319-382 | the same for the high-band quantiser |
| QuantLsp.ExchangeHigh | Libraries/speex/quant_lsp.c:319-382 | a high-band spectrum quantised with the nearest codewords, sent as a packet, read and rebuilt is the same on both sides if and only if every residual fits |
| LspStages.ThreeStages | Libraries/speex/quant_lsp.c:170-203 | for one coefficient, residual doubling and the final rounding give the sum of the start and 32, 16 and 8 times the codes if and only if the residual is within 13 bits and sign |
| LspStages.FarResidualDiffers | Libraries/speex/quant_lsp.c:170-203 | a residual out of that range, for which the two sides differ |
| Ltp.PitchGainExcitation | Libraries/speex/ltp.c:499-515 | the excitation that the gain search settles on is the adaptive-codebook function of the past, the pitch and the gain vector |
| Ltp.PitchUnquant3Tap | Libraries/speex/ltp.c:681-748 | the decoder rebuilds the same function, with the gains shifted beforehand |
| NbLaws.ThreeTaps | Libraries/speex/ltp.c:681-748 | a sample of the adaptive codebook is the sum of three past samples around one pitch period back, or their repetition, the first gain going with the latest; only the width of the sum is limited |
| Ltp.FirstVectorIsSilence | Libraries/speex/ltp.c:579-585 | the zeros that are sent when there is no pitch to search decode to silence, at any pitch |
| Innovation.PackAndRebuild | Libraries/speex/cb_search.c:464-498 | what is packed are the indices, and what is added to the excitation is that of their codewords |
| Innovation.SplitCbShapeSignUnquant | Libraries/speex/cb_search.c:514-570 | the decoder takes the signs and shapes and rebuilds the excitation of their codewords |
| Innovation.TopBitIsSign | Libraries/speex/cb_search.c:464-560 | the top bit of a packed index is the sign bit that the decoder takes first |
| Innovation.IndicesAhead | Libraries/speex/cb_search.c:514-560 | packed indices are read back as they were, for every codebook shape |
| NbLaws.ExcitationAt | Libraries/speex/cb_search.c:514-570 | sample j of subvector i of the excitation is sample j of the signed shape that index i stands for |
| NbLaws.SubvectorAt | Libraries/speex/cb_search.c:545-560 | which is 512 times the table entry, negated or not, without overflow |
| NbLaws.InnovationAt | Libraries/speex/nb_celp.c:826-868 | every sample of the innovation is 512 times such an entry times the gain, with the second search added at its own gain |
| NbLaws.ScaledIsProduct | Libraries/speex/filters.c:113-127 | a sample times a gain, but for rounding down |
| NbLaws.GainsAreProducts | Libraries/speex/nb_celp.c:605-614 | the gain of a subframe is the table fraction of that of the frame, the gain of the frame 0.8669 of its entry, and the second one 0.4545 of the first, all rounded down |
| NbWire.FrameLayout | Libraries/speex/nb_celp.c:537-877 | the fields of a frame have the widths of the layout of its submode |
| NbWire.FrameAhead | Libraries/speex/nb_celp.c:1230-1426 | a frame that was packed is read back with all its parameters |
| NbEncoder.Encoder.EncodeFrame | Libraries/speex/nb_celp.c:537-877 | whatever the other searches choose, the encoder sends the spectrum indices of the nearest codewords and the fields of the frame, steps to the state of the frame function, and its four spectra go in equal steps, within one unit, from the last spectrum to the new one |
| NbDecoder.Decoder.DecodeSubframe | Libraries/speex/nb_celp.c:1299-1426 | the decoder writes the excitation of the parameters it has taken and nothing before it |
| NbDecoder.Decoder.DecodeFrame | Libraries/speex/nb_celp.c:1230-1426 | the decoder takes a frame and steps to the state of its frame function, and its four spectra go in equal steps, within one unit, from the last spectrum to the one that the indices stand for |
| NbSpec.InterpsOnTheLine | Libraries/speex/lsp.c:613-623 | interpolated spectra lie within one unit of the line between two 16-bit spectra, and the last one is the new spectrum itself |
| NbSpec.LoudSpectrumWraps | Libraries/speex/lsp.c:613-623 | the one exception: two entries of 32767 wrap to -32768 half way |
| Lockstep.AdaptiveAgrees | Libraries/speex/ltp.c:681-748 | the adaptive part of the decoder is that of the encoder, up to the clamp that only the decoder has |
| Lockstep.SampleAgrees | Libraries/speex/nb_celp.c:1362-1419 | sample by sample, and as long as no sum overflows, clamped and unclamped excitation give the same sample exactly under a condition on the adaptive and the fixed part |
| Lockstep.SamplesAgree | Libraries/speex/nb_celp.c:1362-1419 | so for a whole subframe: clamped and unclamped excitation give the same samples if and only if the condition holds at every sample |
| Lockstep.ClampMatters | Libraries/speex/nb_celp.c:1355-1419 | a history, gains and any pitch for which the clamp makes the two sides differ |
| Lockstep.SubframesAgree | Libraries/speex/nb_celp.c:647-877 | after every subframe the excitation histories are the same, as long as every sample is within the clamp or meets the condition under which the clamp does not matter |
| Lockstep.SpectrumAgrees | Libraries/speex/nb_celp.c:577-577 | the quantised spectra of the two sides agree if and only if the residual of the quantiser fits |
| Lockstep.FrameAgrees | Libraries/speex/nb_celp.c:1230-1426 | after a frame the two states agree again, and the interpolated spectra were the same |
| Lockstep.RunAgrees | Libraries/speex/nb_celp.c:647-877 | over any run of frames of submodes 2 to 7 and for any choices of the searches, a decoder that starts in agreement with the encoder ends in agreement |
| NbSession.WireParsed | Libraries/speex/nb_celp.c:1126-1192 | a frame on the wire is found by the header loop and read with its parameters |
| NbSession.ExchangeFrame | Libraries/speex/nb_celp.c:537-1426 | encoding a frame, sending it as a packet and decoding it keeps two objects in agreement that were, if the frame fits, with the same interpolated spectra |
| NbSession.ExchangeRun | Libraries/speex/nb_celp.c:252-1426 | over any run of frames sent as packets, encoder and decoder objects end in agreement and have interpolated the same spectra, as long as the frames fit; every index is that of a nearest codeword, and every frame takes up the spectrum where the one before it ended |
| NbSession.Session | Libraries/speex/nb_celp.c:252-1426 | a new encoder and a new decoder interpolate the same spectra over any run of frames that fit |
| Resample.Channel.FilterOne | Libraries/speex/resample.c:328-374 | the four accumulators add up to the inner product with the filter of the phase |
| Resample.Channel.ProcessNative | Libraries/speex/resample.c:792-816 | outputs, position, phase and history after a call are those of the one-shot filter |
| Resample.Channel.Magic | Libraries/speex/resample.c:818-836 | the samples left over from a longer filter behave as if they were input |
| Resample.Channel.Process | Libraries/speex/resample.c:841-877 | one call makes the next outputs of the one-shot filter over pending samples and input; with room to spare it uses all input, and has made just as many outputs as start before its end |
| Resample.Stream | Libraries/speex/resample.c:328-877 | for any split of the input and any room for output the calls together make a prefix of the one-shot result, and samples used, position and phase account for the outputs; with ample room all input offered is used, and there are just as many outputs as start before its end |
| ResampleSpec.Conservation | Libraries/speex/resample.c:342-373 | C*den + last_sample*den + samp_frac is the place of output K, with a phase below den |
| ResampleSpec.CeilingReached | Libraries/speex/resample.c:802-877 | with room to spare the number of outputs is that of the output places before the end of what was used |
| ResampleSpec.CeilingFromStart | Libraries/speex/resample.c:802-877 | from the initial state that number is C*den/num, rounded up |
| ResampleRate.Reduce | Libraries/speex/resample.c:1018-1025 | the loop over the factors leaves the same ratio in lowest terms |
| ResampleRate.RescaleInRange | Libraries/speex/resample.c:1027-1036 | the phase carried over to the new denominator is the old one rounded down and always in range |
| ResampleMemory.LengthChange | Libraries/speex/resample.c:634-714 | no length change lets filt_len + 2*magic_samples exceed the longest filter so far, nor moves the filter centre against the samples |
| ResampleMemory.Memory.ChangeLength | Libraries/speex/resample.c:634-714 | in all three branches and for any number of channels in the one block, every channel keeps its latest samples in order with silence before them, and its filter centre |
| ResampleRuns.Resampler.Process | Libraries/speex/resample.c:792-877 | processing on one channel makes the next outputs of the filter the channel goes on with, over what its buffer held and the input; none of them starts behind the samples used, and with room to spare there are just as many as start before the end; the buffer then holds the latest of both, the position moves by num/den per output, and the other channels stay as they are |
| ResampleRuns.Resampler.ChangeLength | Libraries/speex/resample.c:634-714 | every channel keeps the latest samples of its buffer with silence before them, and its filter centre; before the first call it starts again from silence |
| ResampleRuns.Resampler.SetRate | Libraries/speex/resample.c:1006-1043 | setting the rate reduces it, carries the phases over, and moves every buffer as a change of the filter length does |
| ResampleRuns.Resampler.PlayAll | Libraries/speex/resample.c:634-877 | any sequence of processing calls, length changes and rate changes is a trace of these steps; every buffer at the end is the fold of the latest samples over all of them, and every call puts out what the one-shot filter makes of the buffer before it, as many as the samples it used give |
| ResampleTrace.BufferIsKept | Libraries/speex/resample.c:634-877 | after any part of a trace the buffer of a channel is the fold of the latest samples, at every step as many as history and pending samples take |
| ResampleTrace.OrderIsKept | Libraries/speex/resample.c:634-877 | whatever a buffer holds after any part of a trace is silence followed by the last samples of what the channel has heard, in order, and the number of these is what the lengths along the way have left of it |
| ResampleTrace.OutputsOfTrace | Libraries/speex/resample.c:792-877 | every processing call of a trace ends as the one-shot filter does over the buffer before it and the input: the outputs, their number, what was used, and where the next output stands |
| ResampleTrace.CentreStays | Libraries/speex/resample.c:634-714 | length and rate changes leave the filter centre of every channel over its sample |
| ResampleTrace.PlaceOfTrace | Libraries/speex/resample.c:792-877 | at a fixed rate, all outputs of a trace together move the centre of a channel by num/den each, across length changes |
| JitterTimings.TimingBuffer.Add | Libraries/speex/jitter.c:97-133 | the list of a sub-window stays the sorted list of the 40 smallest of all timings it has received |
| JitterTimings.Timings.Update | Libraries/speex/jitter.c:335-353 | the clamped timing goes to the youngest sub-window; a full one makes room by rotation |
| JitterTimings.Timings.Shift | Libraries/speex/jitter.c:356-364 | all timings received so far are shifted, in all sub-windows |
| JitterMerge.MergeEnd | Libraries/speex/jitter.c:206-245 | the three-way merge enumerates, in order, the 40 smallest of all timings below 32767 |
| JitterMerge.CandidatesAreSmallest | Libraries/speex/jitter.c:206-245 | with all timings below the limit these are simply the 40 smallest |
| JitterTimings.Timings.BestDelay | Libraries/speex/jitter.c:206-255 | the delay is the rounded candidate of least cost, the first one of several |
| JitterTimings.Timings.ComputeOptDelay | Libraries/speex/jitter.c:175-268 | the guards for no data and little data, the automatic tradeoff and the 16-bit result around it |
| JitterCost.RoundsDown | Libraries/speex/jitter.c:76-76 | ROUND_DOWN does round down to a multiple, for negative numbers too |
| JitterBuffers.JitterBuffer.Put | Libraries/speex/jitter.c:368-462 | cleaning, late timings, resynchronisation and insertion, on the slot and arrival arrays, are the put function of the state |
| JitterBuffers.JitterBuffer.Search | Libraries/speex/jitter.c:521-577 | the four passes together find the slot that suits best, or none if none suits |
| JitterBuffers.JitterBuffer.Get | Libraries/speex/jitter.c:465-678 | every call is one of the outcomes that the state machine allows, with just its new state |
| JitterBuffers.JitterBuffer.GetAnother | Libraries/speex/jitter.c:680-713 | takes out the first packet with the timestamp returned last |
| JitterBuffers.JitterBuffer.UpdateDelay | Libraries/speex/jitter.c:716-736 | moves pointer and timings by the optimal delay |
| JitterBuffers.JitterBuffer.Tick | Libraries/speex/jitter.c:754-768 | the adjustment and the time of the next call |
| JitterLaws.StopsAtDesired | Libraries/speex/jitter.c:579-768 | after a get and a tick the next call is due the desired span after the beginning of what was returned, at the pointer when the application knows the offset, or at its end if that comes first, moved by the adjustment |
| JitterLaws.StopsAtRemaining | Libraries/speex/jitter.c:770-785 | after jitter_buffer_remaining_span it is due when the remaining samples run out |
| JitterLaws.TimedOnce | Libraries/speex/jitter.c:368-634 | a packet that is put, kept over any run of calls and delivered is timed just once, by what it was ahead of the next call when it was put: at the put if late, else on delivery; not before the first get, nor when it came on time while the next call was due at zero |
| JitterLaws.TimedAddsOne | Libraries/speex/jitter.c:335-353 | a timing adds one clamped entry to the statistics and drops the oldest sub-window when the youngest is full |
| JitterLaws.ShiftKeepsTime | Libraries/speex/jitter.c:716-736 | an adjustment shifts the timings against the pointer so that the moment each one stands for stays, unless the delay is the least 16-bit number |
| JitterLaws.ConcealedMoves | Libraries/speex/jitter.c:636-676 | a loss spans whole concealment units and moves the pointer by just these; an insertion leaves the pointer and moves the timings by its span |
| JitterLaws.DelayIs | Libraries/speex/jitter.c:175-268 | without data the delay stays, with little data the buffer does not get shorter, and it gets longer only if some packet was late |
| JitterLaws.LateFactorIs | Libraries/speex/jitter.c:199-203 | what a late packet costs, from the tradeoff that was set or the automatic one |
| JitterLaws.LateCounts | Libraries/speex/jitter.c:246-255 | the late packets of a candidate are those before it, and four more if one of them was on time |
| JitterLaws.LostRestarts | Libraries/speex/jitter.c:402-407 | after more than twenty losses a put starts over with just its packet |
| JitterLaws.PlayedGoAway | Libraries/speex/jitter.c:374-390 | a put takes away just the packets that end at or before the pointer |
| JitterLaws.StoredUnlessUseless | Libraries/speex/jitter.c:409-440 | and stores its packet unless that ends more than one step before the pointer |
| JitterLaws.FullDropsEarliest | Libraries/speex/jitter.c:412-440 | in a full buffer the earliest packet makes room |
| JitterLaws.FreeLosesNothing | Libraries/speex/jitter.c:412-440 | while a slot is free, nothing is lost |
| JitterLaws.AnotherHasSameTime | Libraries/speex/jitter.c:579-713 | a packet that goes out ends a series of losses and has its offset from the pointer told; get_another returns a packet exactly when one with the same timestamp is left |
| JitterBuffers.JitterBuffer.PlayAll | Libraries/speex/jitter.c:297-779 | any calls in any order make a run of the state machine |
| JitterDelivery.OkIffOverlap | Libraries/speex/jitter.c:521-577 | with live timestamps, a get on a synchronised buffer without a pending interpolation returns OK exactly when some stored packet overlaps the requested chunk |
| JitterDelivery.OkAdvances | Libraries/speex/jitter.c:579-634 | every OK takes that packet out and moves the pointer strictly forward, to the end of the packet |
| JitterDelivery.PrefersWhole | Libraries/speex/jitter.c:521-577 | a packet that has the whole chunk is preferred, then one that has its beginning, then the one that starts first |
| JitterDelivery.PutThenGet | Libraries/speex/jitter.c:368-634 | after a put that overlaps the next chunk, the next get returns a packet |
| JitterDelivery.SyncReturnsFirst | Libraries/speex/jitter.c:475-499 | the first get after a reset returns the packet with the earliest timestamp |
| JitterDelivery.CleanTakesNothing | Libraries/speex/jitter.c:374-390 | cleaning up takes away no packet that overlaps a chunk still to come |
| JitterRun.UpdateProgress | Libraries/speex/jitter.c:716-736 | pointer + interp_requested moves back in an adjustment if and only if the delay grows while an interpolation is pending |
| JitterRun.NeverBack | Libraries/speex/jitter.c:465-779 | over any run without reset in which adjustments and gets take turns, pointer + interp_requested never moves back, and moves forward by at least one for every packet returned |
| JitterRun.TotalIsDistance | Libraries/speex/jitter.c:465-779 | the progress of a run is the distance from its first to its last pointer on the wrapping time axis |
| JitterRun.NoneTwice | Libraries/speex/jitter.c:368-713 | over any run, no packet comes out more often than it was put in |
| JitterLosses.TwoTicksLose | Libraries/speex/jitter.c:716-768 | from any quiet state two late packets, each followed by a tick, are a run over which pointer + interp_requested moves back by 100 |
| JitterLosses.QuietIsReached | Libraries/speex/jitter.c:272-768 | a new buffer reaches such a state by one packet that is put, returned and played |
| JitterLosses.ResetKeepsRequest | Libraries/speex/jitter.c:297-330 | after a reset the first get returns the packet put since if and only if no interpolation was requested before the reset; otherwise it returns that interpolation |
| JitterLosses.ResetIsInitial | Libraries/speex/jitter.c:272-330 | but for that request and the settings, a reset leaves the buffer as it was created |
| VqNbest.Nbest | Libraries/speex/vq.c:76-147 | the lists hold the n smallest distances in order, each with the index, and the better sign, that it belongs to |
| BeamSearch.SelectBest | Libraries/speex/cb_search.c:347-417 | after a subvector the list holds the n smallest errors of what the survivors offer, each with a survivor and a codeword that have that error |
| BeamPaths.ExtendAll | Libraries/speex/cb_search.c:419-452 | every new survivor has the path of its parent and one more codeword, and its remaining target is the original one less the rounded responses of exactly those codewords |
| BeamRun.FindIndices | Libraries/speex/cb_search.c:321-468 | the stages follow one another through the pointer swap, and the indices are the first path at the end |
| BeamRun.SearchAndPack | Libraries/speex/cb_search.c:242-504 | these indices are packed, and the excitation of their codewords is added |
| BeamGreedy.FindGreedy | Libraries/speex/cb_search.c:100-219 | the search with one survivor picks, subvector by subvector, the codeword with the better sign that is nearest to what the ones before it have left of the target |
| BeamLaws.ErrorsAreCosts | Libraries/speex/cb_search.c:347-462 | after every subvector the error of every survivor is the accumulated cost of its whole path |
| BeamLaws.NothingOverlooked | Libraries/speex/cb_search.c:347-417 | as long as no sum overflows, the list holds the n smallest errors of all survivors with all codewords, not only of those that were offered |
| BeamLaws.ErrorIsHalfGap | Libraries/speex/cb_search.c:371-399 | as long as no sum overflows, and up to rounding down, an error grows by half the squared distance between the remaining target and the response of the signed codeword |
| BeamChoice.BetterSign | Libraries/speex/vq.c:110-147 | of a shape and its negative the one that is no farther from the target is taken |
| BeamChoice.FirstIsBest | Libraries/speex/cb_search.c:321-468 | the path that is sent has the least cost of all survivors at the end |
| BeamChoice.RestIsTargetLessExcitation | Libraries/speex/cb_search.c:419-452 | what a survivor still has to match is the target less its own excitation, as the decoder will rebuild it, convolved with the impulse response |
| BeamChoice.EchoRounds | Libraries/speex/cb_search.c:88-96 | each term of that convolution is the product over 2^13, rounded to the nearest |
| BeamCodebook.ComputeWeightedCodebook | Libraries/speex/cb_search.c:53-82 | every response is its shape convolved with the impulse response, and every energy that of its response |
| BeamCodebook.EnergiesAreDots | Libraries/speex/cb_search.c:53-82 | these are the energies that the errors of the search take for granted |
| BeamCodebook.SplitCbSearchShapeSign | Libraries/speex/cb_search.c:242-504 | from impulse response, target and complexity on: the weighted codebook, one to six survivors, the search for that many, its indices packed and their excitation added |
| LspLpc.Triangle | Libraries/speex/lsp.c:403-516 | in the arithmetic of either build, every coefficient is the rounded combination of the last two rows |
| LspLpc.RowsArePalindromes | Libraries/speex/lsp.c:465-497 | every row reads the same in both directions, however the products are rounded |
| LspLpc.FixedSwaps | Libraries/speex/lsp.c:465-497 | the 32-bit sums of the fixed-point build satisfy what that needs |
| LspLpc.RowIsProduct | Libraries/speex/lsp.c:465-497 | in exact arithmetic the rows are half the products of the quadratics |
| LspLpc.Cascade | Libraries/speex/lsp.c:522-584 | the clocked cascade computes half of P[j] + P[j-1] + Q[j] - Q[j-1] for the products P and Q of the quadratics |
| LspLpc.BothWays | Libraries/speex/lsp.c:403-584 | in exact arithmetic the two algorithms give the same filter |
| LspFixed.WithinTwo | Libraries/speex/lsp.c:403-516 | up to order 10, every coefficient of the fixed-point build is that of exact arithmetic to within two units of 2^-13, saturated |
| LspFixed.RowIsNear | Libraries/speex/lsp.c:465-497 | every entry of the triangle is the exact product to within 85 units of 2^-20, and no sum overflows |
| LspPolynomials.ValueIsProduct | Libraries/speex/lsp.c:556-566 | the coefficients are those of the product: put into a polynomial they give the product of the values of its factors, at every point |
| ChebPolyEva.Forward | Libraries/speex/lsp.c:140-171 | the forward evaluation adds up the terms of the series in the arithmetic of its build |
| ChebPolyEva.Backward | Libraries/speex/lsp.c:177-197 | Clenshaw's recurrence gives the Chebyshev series |
| ChebPolyEva.BothWays | Libraries/speex/lsp.c:140-197 | in exact arithmetic the two evaluations are the same function |
| Filters.Filter | Libraries/speex/filters.c:319-375 | the three filters in transposed form, also in place, compute the filter function of signal and memories and leave its memories |
| Filters.DifferenceEquation | Libraries/speex/filters.c:319-375 | every output is that of the difference equation in direct form, from the inputs and outputs before it and the memories at the beginning |
| Filters.OnlyTheWidth | Libraries/speex/filters.c:319-375 | the memories of the fixed-point build are the exact integer sums but for the width of their type |
| Filters.ExactEquation | Libraries/speex/filters.c:319-375 | over the reals and from silence, an output is its input plus the weighted inputs and less the weighted outputs before it |
| Filters.FixedOutFits | Libraries/speex/filters.c:319-375 | the rounded output is saturated to 16 bits |
| Filters.FixedOutRounds | Libraries/speex/filters.c:319-375 | and is the input plus the memory over 2^13, rounded to the nearest |
| Filters.Chunks | Libraries/speex/filters.c:319-375 | processing a signal in two parts with the memories carried over is the same as in one pass |
| Filters.PolesUndoZeros | Libraries/speex/filters.c:339-375 | over the reals the filter with poles takes back what the one with the same coefficients as zeros has done |
| Filters.FixedFilter | Libraries/speex/filters.c:319-375 | every output of the fixed-point filters is its input plus the rounded exact sum of the difference equation, wrapped to 32 bits and saturated |
| Filters.ThereAndBack | Libraries/speex/filters.c:339-375 | over the reals, fir and iir with the same coefficients in place leave the signal as it was |

## Left out

- Rounding of the floating-point builds: FFT, resampler, cascade and Clenshaw evaluation are over exact reals; the
  scaling shifts of the fixed-point FFT and resampler are not modelled.
- KissFftMain.KissFftStride: the values of cosine and sine are a table that is assumed to hold the powers of a root of
  unity; in-place calls, which the code rejects, are a failure.
- `kiss_fftr` and `kiss_fftri` with the complex output format, which differ from the packed ones in layout only;
  `smallft.c`, a second FFT.
- Lockstep.RunAgrees: submodes 0, 1 and 8, packet loss, the enhancer, VBR and DTX are not part of this model. The two
  sides of forced pitch round differently, and the enhancer may change the low bit of the excitation.
- NbEncoder.Encoder.EncodeFrame: analysis, pitch candidates and gain searches are arbitrary choices in range; the codebook
  search is modelled by itself in `BeamCodebook`.
- NbDecoder.Decoder.DecodeFrame: synthesis filtering and output scaling after the excitation.
- Bits.SpeexBits.ReadWholeBytes: a buffer that is not owned and too small, where the code copies the length of the whole
  buffer behind the unread bytes and so past its end; a failing reallocation; what the stray bits behind the new bytes are.
- Bits.SpeexBits.UnpackSigned: widths 0 and 32, which are undefined in C.
- Framing.FindFrame: handlers registered for in-band requests; the default, which skips the message, is modelled.
- Resample.Channel.Process: strides, the interpolated and the double-precision filters, the conversion of integer samples,
  and null input.
- ResampleMemory.Memory.ChangeLength: the values of the filter table; a realloc is a new block with the old samples in front.
- ResampleRuns.Resampler.SetRate: the filter length is an argument, since the tables by quality are not modelled.
- JitterBuffers.JitterBuffer.Get: the destroy callback and allocation; a packet that does not fit is cut as the code cuts
  it. Fields of the caller's packet that a call leaves alone are not modelled. Counters do not overflow.
- JitterBuffers.JitterBuffer.GetAnother: the caller's room is not checked, as in the code.
- JitterRun.NoneTwice: packets are compared by everything but their data, which a get may cut.
- BeamCodebook.SplitCbSearchShapeSign: updating the target of the next search.
- LspLpc.Triangle: the cosine approximation; the frequencies are given as 2*cos terms.
- `lpc_to_lsp` and `lsp_enforce_margin`: root search, and a margin that the code does not guarantee.
- Perceptual weighting, preprocessing, echo cancellation, packet-loss concealment, wideband filters, control dispatch,
  headers and file input and output.
